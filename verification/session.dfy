/**
  The convert pane of `polybiblioglot/polybiblioglot.py`: the pane a file
  selection creates, its convert and translate callbacks, the buttons they
  gate, and the per-instance uid counter that names each pane's widgets.
  Dear PyGui is foreign: a pane is the record of the values and button
  states its callbacks read and write, and a click on a disabled button
  runs no callback.
*/
module Session {
  import opened Wrappers
  import opened Strings
  import opened Gating
  import T = Translator
  import C = Converter

  /** Written after every page of the assembled text. */
  const PageSeparator: string := " - - - - - \n"

  /** The text a conversion shows: the pages last to first, each followed by the separator. */
  function AssembledText(pages: seq<string>): string
  {
    Terminated(Reverse(pages), PageSeparator)
  }

  /** The loop of `convert_file` that prepends each page to the text built so far. */
  method AssembleText(pages: seq<string>) returns (fullText: string)
    ensures fullText == AssembledText(pages)
    ensures |fullText| == SumLengths(pages) + 12 * |pages|
  {
    fullText := "";
    var i := 0;
    while i < |pages|
      invariant 0 <= i <= |pages|
      invariant fullText == AssembledText(pages[..i])
    {
      assert pages[..i + 1][..i] == pages[..i];
      fullText := pages[i] + PageSeparator + fullText;
      i := i + 1;
    }
    assert pages[..i] == pages;
    TerminatedLength(Reverse(pages), PageSeparator);
    ReverseLength(pages);
    SumLengthsReverse(pages);
  }

  /** Page `k` of the assembled text, counted from the top, is page `|pages| - 1 - k` of the document. */
  lemma AssembledTextOrder(pages: seq<string>, k: int)
    requires 0 <= k < |pages|
    ensures |Reverse(pages)| == |pages|
    ensures Reverse(pages)[k] == pages[|pages| - 1 - k]
    ensures AssembledText(pages) == Terminated(Reverse(pages)[..k], PageSeparator)
                                    + pages[|pages| - 1 - k] + PageSeparator
                                    + Terminated(Reverse(pages)[k + 1..], PageSeparator)
  {
    ReverseIndex(pages, k);
    var r := Reverse(pages);
    assert r == r[..k] + r[k..];
    TerminatedAppend(r[..k], r[k..], PageSeparator);
    assert r[k..][1..] == r[k + 1..];
  }

  /** The state of one convert pane. */
  datatype Pane = Pane(uid: nat, fileName: string, filePath: string, buttons: Buttons,
                       text: string, translatedText: string)

  /** `update_convert_pane`: both text values empty, only convert enabled. */
  function NewPane(uid: nat, fileName: string, filePath: string): (p: Pane)
    ensures p.buttons.convert && !p.buttons.translate && !p.buttons.saveText && !p.buttons.saveTranslation
    ensures p.text == "" && p.translatedText == ""
    ensures Consistent(p)
  {
    Pane(uid, fileName, filePath, Initial, "", "")
  }

  /** Button states every reachable pane satisfies. */
  predicate Consistent(p: Pane)
  {
    && (p.buttons.translate ==> p.buttons.saveText)
    && (p.buttons.saveTranslation ==> p.buttons.saveText)
    && (p.buttons.saveText ==> !p.buttons.convert)
  }

  /** Python truthiness of the converter's result: `None` and `[]` are both false. */
  predicate NonEmpty(pages: Option<seq<string>>)
  {
    pages.Some? && pages.value != []
  }

  /**
    The `convert_file` callback given what the converter returned: convert is
    disabled first; an empty or absent result stops there, anything else
    sets the text and enables translate and save-text.
  */
  function OnConvert(p: Pane, pages: Option<seq<string>>): (p': Pane)
    ensures !p'.buttons.convert
    ensures p'.uid == p.uid && p'.fileName == p.fileName && p'.filePath == p.filePath
    ensures p'.translatedText == p.translatedText
    ensures p'.buttons.saveTranslation == p.buttons.saveTranslation
    ensures !NonEmpty(pages) ==> p' == p.(buttons := p.buttons.(convert := false))
    ensures NonEmpty(pages) ==>
              && p'.text == AssembledText(pages.value)
              && |p'.text| == SumLengths(pages.value) + 12 * |pages.value|
              && p'.buttons.translate && p'.buttons.saveText
  {
    var disabled := p.(buttons := Configure(p.buttons, ConvertDisable, false));
    if !NonEmpty(pages) then disabled
    else
      var pageList := pages.value;
      TerminatedLength(Reverse(pageList), PageSeparator);
      ReverseLength(pageList);
      SumLengthsReverse(pageList);
      disabled.(text := AssembledText(pageList), buttons := Configure(disabled.buttons, ConvertEnable, true))
  }

  /** What a translate click reads besides the pane: the combo values, the token, the language table and the backends. */
  datatype TranslateSettings = TranslateSettings(sourceName: string, destinationName: string,
                                                 translationMethod: string, apiToken: string,
                                                 lang: map<string, string>, providers: T.Providers)

  /** The translator the application constructs, with the free tier as its default. */
  const AppTranslator: T.MultiTranslator := T.New(T.FreeTier)

  /** The authentication the callback always passes: a map with a `token` key. */
  function Authentication(apiToken: string): Option<map<string, string>>
  {
    Some(map[T.TokenKey := apiToken])
  }

  /** An exception escaping the translate callback. */
  datatype Raised = KeyError(key: string) | TranslatorRaised(error: T.TranslateError)

  /** The pane after a callback, and what it raised, if anything. */
  datatype Handled = Handled(pane: Pane, raised: Option<Raised>)

  /** A language name missing from the table, or an unrecognised method name. */
  predicate Raises(s: TranslateSettings)
  {
    || s.sourceName !in s.lang
    || s.destinationName !in s.lang
    || (s.translationMethod != "" && s.translationMethod !in T.TranslatorTypes)
  }

  /** The translation the callback requests for the pane's text. */
  function Outcome(p: Pane, s: TranslateSettings): Result<string, T.TranslateError>
    requires s.sourceName in s.lang && s.destinationName in s.lang
  {
    T.Translate(AppTranslator, p.text, s.lang[s.sourceName], s.lang[s.destinationName],
                s.translationMethod, Authentication(s.apiToken), s.providers)
  }

  /** Stores a translated text and applies the translate payload's enable list. */
  function Store(p: Pane, translated: string): Pane
  {
    p.(translatedText := translated, buttons := Configure(p.buttons, TranslateEnable, true))
  }

  /**
    The `translate_text` callback: translate is disabled first. A failed
    lookup or an invalid method propagates and leaves it disabled; an
    `ApiError` is caught and its message stored as the translation; the
    translation (or that message) re-enables translate and save-translation.
  */
  function OnTranslate(p: Pane, s: TranslateSettings): (h: Handled)
    ensures h.raised.Some? <==> Raises(s)
    ensures h.raised.Some? ==> h.pane == p.(buttons := p.buttons.(translate := false))
    ensures h.raised.Some? ==> h.raised.value.KeyError? || h.raised.value == TranslatorRaised(T.InvalidTranslationMethod)
    ensures h.raised.None? ==>
              && h.pane == p.(translatedText := h.pane.translatedText,
                              buttons := p.buttons.(translate := true, saveTranslation := true))
              && (Outcome(p, s).Success? ==> h.pane.translatedText == Outcome(p, s).value)
              && (Outcome(p, s).Failure? ==>
                    (Outcome(p, s).error.ApiError? && h.pane.translatedText == Outcome(p, s).error.message))
  {
    var disabled := p.(buttons := Configure(p.buttons, TranslateDisable, false));
    if s.sourceName !in s.lang then Handled(disabled, Some(KeyError(s.sourceName)))
    else if s.destinationName !in s.lang then Handled(disabled, Some(KeyError(s.destinationName)))
    else
      match Outcome(p, s)
      case Success(translated) => Handled(Store(disabled, translated), None)
      case Failure(e) =>
        if e.ApiError? then Handled(Store(disabled, e.message), None)
        else Handled(disabled, Some(TranslatorRaised(e)))
  }

  /** A click on one of the pane's two action buttons, with what the foreign code will answer. */
  datatype Event = ConvertClick(engines: C.Engines) | TranslateClick(settings: TranslateSettings)

  /** A click runs its callback only while its button is enabled. */
  function Apply(p: Pane, e: Event): Pane
  {
    match e
    case ConvertClick(engines) =>
      if p.buttons.convert then OnConvert(p, C.Pages(Some(p.filePath), engines)) else p
    case TranslateClick(s) =>
      if p.buttons.translate then OnTranslate(p, s).pane else p
  }

  /** The pane after a sequence of clicks. */
  function Run(p: Pane, events: seq<Event>): Pane
    decreases |events|
  {
    if events == [] then p else Apply(Run(p, events[..|events| - 1]), events[|events| - 1])
  }

  /** What the gating sees of a click on the pane for `path`. */
  function ClickOf(path: string, e: Event): (c: Click)
    ensures c.Convert? <==> e.ConvertClick?
    ensures e.TranslateClick? ==> c.raises == Raises(e.settings)
  {
    match e
    case ConvertClick(engines) => Convert(NonEmpty(C.Pages(Some(path), engines)))
    case TranslateClick(s) => Translate(Raises(s))
  }

  /** What the gating sees of a sequence of clicks. */
  function Clicks(path: string, events: seq<Event>): seq<Click>
  {
    seq(|events|, k requires 0 <= k < |events| => ClickOf(path, events[k]))
  }

  /** Dropping the last click drops the last abstract click. */
  lemma ClicksPrefix(path: string, events: seq<Event>)
    requires events != []
    ensures Clicks(path, events[..|events| - 1]) == Clicks(path, events)[..|events| - 1]
  {
  }

  /** The abstract clicks contain a convert click exactly where the events do. */
  lemma NoConvertClick(path: string, events: seq<Event>)
    ensures NoConvertBefore(Clicks(path, events), |events|)
            <==> forall k :: 0 <= k < |events| ==> !events[k].ConvertClick?
  {
    var clicks := Clicks(path, events);
    assert forall k :: 0 <= k < |events| ==> clicks[k] == ClickOf(path, events[k]);
  }

  /** The abstract click at `i` is what the gating sees of event `i`. */
  lemma ClickAt(path: string, events: seq<Event>, i: int)
    requires 0 <= i < |events|
    ensures Clicks(path, events)[i] == ClickOf(path, events[i])
    ensures i < |events| - 1 ==> events[..|events| - 1][i] == events[i]
  {
  }

  /** What one click does to the buttons: the gating machine's step on what the click returned. */
  lemma StepButtons(p: Pane, e: Event)
    ensures var q := Apply(p, e);
            && q.uid == p.uid && q.fileName == p.fileName && q.filePath == p.filePath
            && q.buttons == Step(p.buttons, ClickOf(p.filePath, e))
  {
  }

  /** Only a convert click on an enabled button changes the text, to the assembly of the pages it got. */
  lemma StepText(p: Pane, e: Event)
    ensures e.ConvertClick? && p.buttons.convert && NonEmpty(C.Pages(Some(p.filePath), e.engines)) ==>
              Apply(p, e).text == AssembledText(C.Pages(Some(p.filePath), e.engines).value)
    ensures !(e.ConvertClick? && p.buttons.convert) ==> Apply(p, e).text == p.text
  {
  }

  /** Clicks never change which file a pane belongs to, and its buttons follow the gating machine. */
  lemma {:induction false} RunButtons(uid: nat, fileName: string, path: string, events: seq<Event>)
    ensures Run(NewPane(uid, fileName, path), events).uid == uid
    ensures Run(NewPane(uid, fileName, path), events).filePath == path
    ensures Run(NewPane(uid, fileName, path), events).buttons == Replay(Clicks(path, events))
    decreases |events|
  {
    if events != [] {
      var pre := events[..|events| - 1];
      RunButtons(uid, fileName, path, pre);
      ClicksPrefix(path, events);
      StepButtons(Run(NewPane(uid, fileName, path), pre), events[|events| - 1]);
    }
  }

  /** Every pane reachable by clicks from a new pane keeps the button invariant. */
  lemma ConsistentReachable(uid: nat, fileName: string, path: string, events: seq<Event>)
    ensures Consistent(Run(NewPane(uid, fileName, path), events))
  {
    RunButtons(uid, fileName, path, events);
    ReplayConsistent(Clicks(path, events));
  }

  /** Convert stays enabled exactly until the first convert click: it is never re-enabled. */
  lemma ConvertEnabledIff(uid: nat, fileName: string, path: string, events: seq<Event>)
    ensures Run(NewPane(uid, fileName, path), events).buttons.convert
            <==> forall k :: 0 <= k < |events| ==> !events[k].ConvertClick?
  {
    RunButtons(uid, fileName, path, events);
    ConvertIff(Clicks(path, events));
    NoConvertClick(path, events);
  }

  /** Save-text is enabled exactly when the first convert click produced pages. */
  lemma SaveTextEnabledIff(uid: nat, fileName: string, path: string, events: seq<Event>)
    ensures Run(NewPane(uid, fileName, path), events).buttons.saveText
            <==> exists i :: ConvertedAt(Clicks(path, events), i)
  {
    RunButtons(uid, fileName, path, events);
    SaveTextIff(Clicks(path, events));
  }

  /** The pane's text is the assembly of the pages of the first, successful, conversion. */
  lemma {:induction false} TextOfFirstConversion(uid: nat, fileName: string, path: string, events: seq<Event>, i: int)
    requires ConvertedAt(Clicks(path, events), i)
    ensures events[i].ConvertClick?
    ensures Run(NewPane(uid, fileName, path), events).text == AssembledText(C.Pages(Some(path), events[i].engines).value)
    decreases |events|
  {
    var n := |events|;
    var pre := events[..n - 1];
    var clicks := Clicks(path, events);
    ClickAt(path, events, i);
    ClicksPrefix(path, events);
    RunButtons(uid, fileName, path, pre);
    ConvertIff(Clicks(path, pre));
    var before := Run(NewPane(uid, fileName, path), pre);
    if i < n - 1 {
      ConvertedAtPrefix(clicks, i);
      TextOfFirstConversion(uid, fileName, path, pre, i);
      StepText(before, events[n - 1]);
    } else {
      ConvertedAtLast(clicks);
      StepText(before, events[n - 1]);
    }
  }

  /**
    Translate is enabled exactly when the first convert click produced pages
    and no translate click since then has raised.
  */
  lemma TranslateEnabledIff(uid: nat, fileName: string, path: string, events: seq<Event>)
    ensures var clicks := Clicks(path, events);
            Run(NewPane(uid, fileName, path), events).buttons.translate
            <==> exists i :: ConvertedAt(clicks, i) && NoRaisingTranslate(clicks, i, |clicks|)
  {
    var clicks := Clicks(path, events);
    RunButtons(uid, fileName, path, events);
    if Replay(clicks).translate {
      TranslateOnlyAfter(clicks);
    }
    if exists i :: ConvertedAt(clicks, i) && NoRaisingTranslate(clicks, i, |clicks|) {
      var i :| ConvertedAt(clicks, i) && NoRaisingTranslate(clicks, i, |clicks|);
      TranslateAfter(clicks, i);
    }
  }

  /**
    Save-translation is enabled exactly when the first convert click produced
    pages and, after it, a translate click that did not raise came before
    any that did: a translation can only follow a successful conversion.
  */
  lemma SaveTranslationEnabledIff(uid: nat, fileName: string, path: string, events: seq<Event>)
    ensures Run(NewPane(uid, fileName, path), events).buttons.saveTranslation
            <==> exists i, j :: TranslatedAt(Clicks(path, events), i, j)
  {
    var clicks := Clicks(path, events);
    RunButtons(uid, fileName, path, events);
    if Replay(clicks).saveTranslation {
      SaveTranslationOnlyAfter(clicks);
    }
    if exists i, j :: TranslatedAt(clicks, i, j) {
      var i, j :| TranslatedAt(clicks, i, j);
      SaveTranslationAfter(clicks, i, j);
    }
  }

  /** The callback never raises `AuthenticationError`: it always passes a `token` key, even an empty one. */
  lemma NoAuthenticationErrorFromPane(p: Pane, s: TranslateSettings)
    requires s.sourceName in s.lang && s.destinationName in s.lang
    ensures Outcome(p, s) != Failure(T.AuthenticationError)
  {
  }

  /** The application: the uid counter and the pane shown in the centre panel. */
  datatype App = App(currentUid: nat, center: Option<Pane>)

  const Startup: App := App(0, None)

  /** `_get_uid`: the current value, and the application with the counter advanced. */
  function GetUid(app: App): (r: (nat, App))
    ensures r.0 == app.currentUid
    ensures r.1.currentUid == app.currentUid + 1 && r.1.center == app.center
  {
    (app.currentUid, app.(currentUid := app.currentUid + 1))
  }

  /** `update_convert_pane`: the centre panel is replaced by a new pane under a fresh uid. */
  function UpdateConvertPane(app: App, fileName: string, filePath: string): (r: App)
    ensures r.currentUid == app.currentUid + 1
    ensures r.center.Some? && r.center.value.uid == app.currentUid
    ensures r.center.value.fileName == fileName && r.center.value.filePath == filePath
    ensures r.center.value.buttons == Initial && r.center.value.text == "" && r.center.value.translatedText == ""
  {
    var (uid, app') := GetUid(app);
    app'.(center := Some(NewPane(uid, fileName, filePath)))
  }

  /** The panes successive file selections create, and the application afterwards. */
  function OpenPanes(app: App, files: seq<(string, string)>): (seq<Pane>, App)
    decreases |files|
  {
    if files == [] then ([], app)
    else
      var app' := UpdateConvertPane(app, files[0].0, files[0].1);
      var rest := OpenPanes(app', files[1..]);
      ([app'.center.value] + rest.0, rest.1)
  }

  /** Successive panes get consecutive uids, from the counter's value onwards. */
  lemma {:induction false} PaneUidsConsecutive(app: App, files: seq<(string, string)>)
    ensures |OpenPanes(app, files).0| == |files|
    ensures forall i :: 0 <= i < |files| ==> OpenPanes(app, files).0[i].uid == app.currentUid + i
    ensures OpenPanes(app, files).1.currentUid == app.currentUid + |files|
    decreases |files|
  {
    if files != [] {
      PaneUidsConsecutive(UpdateConvertPane(app, files[0].0, files[0].1), files[1..]);
    }
  }

  /** From start-up the uids are 0, 1, 2, ..., so no two panes share one. */
  lemma PaneUidsDistinct(files: seq<(string, string)>)
    ensures |OpenPanes(Startup, files).0| == |files|
    ensures forall i :: 0 <= i < |files| ==> OpenPanes(Startup, files).0[i].uid == i
    ensures forall i, j :: 0 <= i < j < |files| ==> OpenPanes(Startup, files).0[i].uid < OpenPanes(Startup, files).0[j].uid
  {
    PaneUidsConsecutive(Startup, files);
  }

  /** OCR that reads "Hello" from every image except the one holding the single byte 1, which reads "World". */
  function StubOcr(image: C.Image): string
  {
    if image == [1] then "World" else "Hello"
  }

  /** A two-page "report.pdf" whose pages read "Hello" then "World". */
  function ReportEngines(): C.Engines
  {
    C.Engines(StubOcr, (path: string) => [], (path: string, format: string) => [[0], [1]])
  }

  /** The two-page report converts to its pages in page order. */
  lemma ReportPages()
    ensures C.Pages(Some("report.pdf"), ReportEngines()) == Some(["Hello", "World"])
  {
    var path := "report.pdf";
    var lower := C.Lower(path);
    assert lower[6..] == [C.LowerChar('.'), C.LowerChar('p'), C.LowerChar('d'), C.LowerChar('f')];
    assert C.Classify(path) == C.Pdf;
    var images := ReportEngines().convertFromPath(path, C.RasterFormat);
    assert images == [[0], [1]];
    assert StubOcr(images[0]) == "Hello" && StubOcr(images[1]) == "World";
    assert C.OcrAll(images, ReportEngines()) == ["Hello", "World"];
  }

  /** The report's pages are shown last page first. */
  lemma ReportText()
    ensures AssembledText(["Hello", "World"]) == "World" + PageSeparator + "Hello" + PageSeparator
  {
    assert Reverse(["Hello", "World"]) == ["World", "Hello"] by {
      assert ["Hello", "World"][..1] == ["Hello"];
      assert Reverse(["Hello"]) == ["Hello"];
    }
    assert ["World", "Hello"][1..] == ["Hello"];
    assert ["Hello"][1..] == [];
    assert Terminated(["Hello"], PageSeparator) == "Hello" + PageSeparator + "";
  }

  /**
    Converting the two-page report shows the second page above the first
    and enables translate and save-text only.
  */
  lemma ReportScenario()
    ensures Run(NewPane(0, "report.pdf", "report.pdf"), [ConvertClick(ReportEngines())]).text
            == "World" + PageSeparator + "Hello" + PageSeparator
    ensures Run(NewPane(0, "report.pdf", "report.pdf"), [ConvertClick(ReportEngines())]).buttons
            == Buttons(convert := false, translate := true, saveText := true, saveTranslation := false)
  {
    ReportPages();
    ReportText();
    var start := NewPane(0, "report.pdf", "report.pdf");
    var events := [ConvertClick(ReportEngines())];
    assert events[..0] == [];
    assert Run(start, events) == OnConvert(start, Some(["Hello", "World"]));
  }

  /** IBM settings whose backend answers every request with status 500 and body "quota exceeded". */
  function QuotaExceededSettings(apiToken: string): TranslateSettings
  {
    TranslateSettings("English", "German", T.Ibm, apiToken, map["English" := "en", "German" := "de"],
                      T.Providers((call: T.FreeTierCall) => "", (call: T.IbmCall) => T.HttpResponse(500, "quota exceeded", [])))
  }

  /**
    An IBM error reply is shown as the translation, and translate and
    save-translation are enabled again; this holds for an empty token too.
  */
  lemma QuotaExceededScenario(p: Pane, apiToken: string)
    ensures OnTranslate(p, QuotaExceededSettings(apiToken)).raised == None
    ensures OnTranslate(p, QuotaExceededSettings(apiToken)).pane.translatedText == "quota exceeded"
    ensures OnTranslate(p, QuotaExceededSettings(apiToken)).pane.buttons.saveTranslation
  {
    var s := QuotaExceededSettings(apiToken);
    assert T.HasToken(Authentication(apiToken));
    assert Outcome(p, s) == Failure(T.ApiError("quota exceeded"));
  }
}
