/**
  Translation dispatch of `translator.py`: method resolution, the free-tier
  truncation, the IBM request, status check and segment concatenation.
  Both backends are foreign: the free-tier library call and the IBM HTTP
  POST are fields of `Providers`, so the dispatch logic around them is what
  is stated and proved here.
*/
module Translator {
  import opened Wrappers
  import opened Strings

  /** The two values of `TRANSLATOR_TYPES`. */
  const FreeTier: string := "translator"
  const Ibm: string := "ibm"
  const TranslatorTypes: set<string> := {FreeTier, Ibm}

  /** The free-tier backend is sent at most this many characters. */
  const FreeTierLimit: nat := 499

  const IbmTranslateUrl: string := "https://api.us-south.language-translator.watson.cloud.ibm.com/instances/c9cf4fc5-460c-40fa-8338-b524a9428899/v3/translate?version=2018-05-01"
  /** Basic-auth user name of the IBM request; the token is the password. */
  const IbmUsername: string := "apikey"
  const TokenKey: string := "token"
  const HttpOk: int := 200
  const HttpPost: string := "POST"
  const JsonContentType: string := "application/json"

  /** The three exception classes, plus the `AttributeError` raised when no default type was ever stored. */
  datatype TranslateError =
    | InvalidTranslationMethod
    | AuthenticationError
    | ApiError(message: string)
    | NoTranslatorType

  /** A `MultiTranslator`; `translatorType` is `None` while the attribute was never assigned. */
  datatype MultiTranslator = MultiTranslator(translatorType: Option<string>)

  /** A stored type is always a recognised one. */
  predicate Valid(m: MultiTranslator)
  {
    m.translatorType.Some? ==> m.translatorType.value in TranslatorTypes
  }

  /** The constructor: the type is stored only when it is recognised. */
  function New(translatorType: string): (m: MultiTranslator)
    ensures Valid(m)
    ensures m.translatorType.Some? <==> translatorType in TranslatorTypes
    ensures m.translatorType.Some? ==> m.translatorType.value == translatorType
  {
    if translatorType in TranslatorTypes then MultiTranslator(Some(translatorType))
    else MultiTranslator(None)
  }

  /** `set_api`: a recognised type replaces the stored one; any other leaves the translator as it was. */
  function SetApi(m: MultiTranslator, translatorType: string): (m': MultiTranslator)
    ensures Valid(m) ==> Valid(m')
    ensures translatorType in TranslatorTypes ==> m'.translatorType == Some(translatorType)
    ensures translatorType !in TranslatorTypes ==> m' == m
  {
    if translatorType in TranslatorTypes then m.(translatorType := Some(translatorType)) else m
  }

  /** What the free-tier library is asked to translate. */
  datatype FreeTierCall = FreeTierCall(fromLang: string, toLang: string, text: string)

  /** The JSON body of the IBM request. */
  datatype IbmBody = IbmBody(text: seq<string>, modelId: string)

  /** The IBM HTTP request: verb, endpoint, `Content-Type` header, JSON body and basic-auth pair. */
  datatype IbmCall = IbmCall(verb: string, url: string, contentType: string, body: IbmBody,
                             username: string, password: string)

  /** The request `translate` sends to IBM: a JSON POST of the text as a one-element list, authenticated as `apikey`. */
  function IbmRequest(text: string, source: string, destination: string, token: string): IbmCall
  {
    IbmCall(HttpPost, IbmTranslateUrl, JsonContentType, IbmBody([text], source + "-" + destination), IbmUsername, token)
  }

  /** The one request a translation issues. */
  datatype Request = ToFreeTier(freeTier: FreeTierCall) | ToIbm(ibm: IbmCall)

  /** The IBM reply: status, raw body, and the `translation` field of each element of `translations`. */
  datatype HttpResponse = HttpResponse(statusCode: int, text: string, translations: seq<string>)

  /** The foreign backends. */
  datatype Providers = Providers(freeTier: FreeTierCall -> string, ibm: IbmCall -> HttpResponse)

  /** The method actually used: the argument, or the stored default when the argument is empty. */
  function ResolveMethod(m: MultiTranslator, translationMethod: string): Option<string>
  {
    if translationMethod == "" then m.translatorType else Some(translationMethod)
  }

  /** `text[:499]`. */
  function Truncate(text: string): (r: string)
    ensures r <= text
    ensures |r| == if |text| <= FreeTierLimit then |text| else FreeTierLimit
    ensures |text| <= FreeTierLimit ==> r == text
  {
    if |text| <= FreeTierLimit then text else text[..FreeTierLimit]
  }

  /** `authentication['token']` succeeds. */
  predicate HasToken(authentication: Option<map<string, string>>)
  {
    authentication.Some? && TokenKey in authentication.value
  }

  /**
    Everything `translate` decides before any backend is contacted: either
    the request to send, or the exception raised instead of sending one.
  */
  function Prepare(m: MultiTranslator, text: string, source: string, destination: string,
                   translationMethod: string, authentication: Option<map<string, string>>)
    : (r: Result<Request, TranslateError>)
    ensures r == Failure(NoTranslatorType) <==> ResolveMethod(m, translationMethod).None?
    ensures r == Failure(InvalidTranslationMethod) <==>
              ResolveMethod(m, translationMethod).Some? && ResolveMethod(m, translationMethod).value !in TranslatorTypes
    ensures ResolveMethod(m, translationMethod) == Some(FreeTier) ==>
              r == Success(ToFreeTier(FreeTierCall(source, destination, Truncate(text))))
    ensures ResolveMethod(m, translationMethod) == Some(Ibm) ==>
              (r == Failure(AuthenticationError) <==> !HasToken(authentication))
    ensures ResolveMethod(m, translationMethod) == Some(Ibm) && HasToken(authentication) ==>
              r == Success(ToIbm(IbmRequest(text, source, destination, authentication.value[TokenKey])))
    ensures r.Failure? ==> !r.error.ApiError?
  {
    match ResolveMethod(m, translationMethod)
    case None => Failure(NoTranslatorType)
    case Some(resolved) =>
      if resolved !in TranslatorTypes then Failure(InvalidTranslationMethod)
      else if resolved == FreeTier then
        Success(ToFreeTier(FreeTierCall(source, destination, Truncate(text))))
      else if !HasToken(authentication) then Failure(AuthenticationError)
      else
        Success(ToIbm(IbmRequest(text, source, destination, authentication.value[TokenKey])))
  }

  /**
    Sends the request and interprets the reply: the free tier's answer is
    the translation; an IBM reply fails with its raw body exactly when its
    status is not 200, and otherwise yields its segments, each followed by a
    line break.
  */
  function Deliver(request: Request, providers: Providers): (r: Result<string, TranslateError>)
    ensures request.ToFreeTier? ==> r == Success(providers.freeTier(request.freeTier))
    ensures request.ToIbm? ==>
              (r.Failure? <==> providers.ibm(request.ibm).statusCode != HttpOk)
    ensures r.Failure? ==> r.error == ApiError(providers.ibm(request.ibm).text)
    ensures request.ToIbm? && r.Success? ==>
              && r.value == Terminated(providers.ibm(request.ibm).translations, "\n")
              && |r.value| == SumLengths(providers.ibm(request.ibm).translations) + |providers.ibm(request.ibm).translations|
  {
    match request
    case ToFreeTier(call) => Success(providers.freeTier(call))
    case ToIbm(call) =>
      var response := providers.ibm(call);
      if response.statusCode != HttpOk then Failure(ApiError(response.text))
      else
        TerminatedLength(response.translations, "\n");
        Success(Terminated(response.translations, "\n"))
  }

  /** `MultiTranslator.translate`. */
  function Translate(m: MultiTranslator, text: string, source: string, destination: string,
                     translationMethod: string, authentication: Option<map<string, string>>,
                     providers: Providers): (r: Result<string, TranslateError>)
    ensures Prepare(m, text, source, destination, translationMethod, authentication).Failure? ==>
              r == Failure(Prepare(m, text, source, destination, translationMethod, authentication).error)
    ensures ResolveMethod(m, translationMethod) == Some(FreeTier) ==>
              r == Success(providers.freeTier(FreeTierCall(source, destination, Truncate(text))))
  {
    match Prepare(m, text, source, destination, translationMethod, authentication)
    case Failure(e) => Failure(e)
    case Success(request) => Deliver(request, providers)
  }

  /** The loop that builds the IBM output: each segment followed by a line break. */
  method JoinTranslations(translations: seq<string>) returns (output: string)
    ensures output == Terminated(translations, "\n")
    ensures |output| == SumLengths(translations) + |translations|
  {
    output := "";
    var i := 0;
    while i < |translations|
      invariant 0 <= i <= |translations|
      invariant output == Terminated(translations[..i], "\n")
    {
      assert translations[..i + 1] == translations[..i] + [translations[i]];
      TerminatedAppend(translations[..i], [translations[i]], "\n");
      output := output + translations[i];
      output := output + "\n";
      i := i + 1;
    }
    assert translations[..i] == translations;
    TerminatedLength(translations, "\n");
  }

  /** Splits a string into its line-break-terminated lines; a trailing unterminated part is one more line. */
  function SplitLines(s: string): seq<string>
    decreases |s|
  {
    if s == [] then []
    else
      var k := IndexOf(s, '\n');
      if k == |s| then [s] else [s[..k]] + SplitLines(s[k + 1..])
  }

  /** The IBM output loses nothing: its lines are the segments, when no segment holds a line break itself. */
  lemma {:induction false} SegmentsRecoverable(translations: seq<string>)
    requires forall i :: 0 <= i < |translations| ==> '\n' !in translations[i]
    ensures SplitLines(Terminated(translations, "\n")) == translations
  {
    if translations != [] {
      var head, rest := translations[0], translations[1..];
      var s := Terminated(translations, "\n");
      assert s == head + "\n" + Terminated(rest, "\n");
      assert s[|head|] == '\n';
      var k := IndexOf(s, '\n');
      assert k == |head|;
      assert s[..k] == head;
      assert s[k + 1..] == Terminated(rest, "\n");
      SegmentsRecoverable(rest);
    }
  }

  /** An empty method name behaves exactly as the stored default type. */
  lemma DefaultMethod(m: MultiTranslator, text: string, source: string, destination: string,
                      authentication: Option<map<string, string>>, providers: Providers)
    requires m.translatorType.Some?
    ensures Translate(m, text, source, destination, "", authentication, providers)
         == Translate(m, text, source, destination, m.translatorType.value, authentication, providers)
  {
  }

  /**
    When `translate` raises before sending, no backend is contacted: the
    outcome does not depend on what the backends would have answered.
  */
  lemma RefusalContactsNoProvider(m: MultiTranslator, text: string, source: string, destination: string,
                                  translationMethod: string, authentication: Option<map<string, string>>,
                                  p1: Providers, p2: Providers)
    requires Prepare(m, text, source, destination, translationMethod, authentication).Failure?
    ensures Translate(m, text, source, destination, translationMethod, authentication, p1)
         == Translate(m, text, source, destination, translationMethod, authentication, p2)
  {
  }

  /** `ApiError` arises exactly when an IBM request was sent and answered with a status other than 200; it carries the raw body. */
  lemma ApiErrorOnlyFromIbmStatus(m: MultiTranslator, text: string, source: string, destination: string,
                                  translationMethod: string, authentication: Option<map<string, string>>,
                                  providers: Providers, message: string)
    ensures var prepared := Prepare(m, text, source, destination, translationMethod, authentication);
            Translate(m, text, source, destination, translationMethod, authentication, providers) == Failure(ApiError(message))
            <==>
            prepared.Success? && prepared.value.ToIbm?
            && providers.ibm(prepared.value.ibm).statusCode != HttpOk
            && providers.ibm(prepared.value.ibm).text == message
  {
  }

  /**
    On an IBM reply with status 200 the output is every segment followed by
    a line break: its length is the segments' total plus their count, and no
    segments give the empty string.
  */
  lemma IbmSuccessOutput(m: MultiTranslator, text: string, source: string, destination: string,
                         translationMethod: string, authentication: Option<map<string, string>>,
                         providers: Providers)
    requires ResolveMethod(m, translationMethod) == Some(Ibm) && HasToken(authentication)
    requires providers.ibm(IbmRequest(text, source, destination, authentication.value[TokenKey])).statusCode == HttpOk
    ensures var segments := providers.ibm(IbmRequest(text, source, destination, authentication.value[TokenKey])).translations;
            var r := Translate(m, text, source, destination, translationMethod, authentication, providers);
            && r == Success(Terminated(segments, "\n"))
            && |r.value| == SumLengths(segments) + |segments|
            && (segments == [] ==> r.value == "")
  {
    var segments := providers.ibm(IbmRequest(text, source, destination, authentication.value[TokenKey])).translations;
    TerminatedLength(segments, "\n");
  }
}
