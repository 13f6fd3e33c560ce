/**
 * How commands.rs asks PowerShell for windows: the user's process name and
 * window title are pasted into single-quoted PowerShell literals, the
 * `$match` condition is chosen from which of the two were given, and the JSON
 * that comes back is turned into `WindowInfo` records.
 */
module WindowQuery {
  import opened Results
  import opened Text

  // ---------------------------------------------------------------------------
  // Single-quoted PowerShell literals.
  // ---------------------------------------------------------------------------

  /** The characters PowerShell's tokenizer treats as a single quote. */
  predicate IsSingleQuote(c: char) {
    c == '\'' || c == '\U{2018}' || c == '\U{2019}' || c == '\U{201A}' || c == '\U{201B}'
  }

  /**
   * PowerShell reading the body of a single-quoted literal (the text after the
   * opening quote): two quote characters in a row stand for the second one, a
   * lone quote ends the literal. The result is the literal's value and the
   * script text after it; `None` when the literal never ends.
   */
  function ReadBody(t: string): Option<(string, string)>
    decreases |t|
  {
    if t == [] then None
    else if IsSingleQuote(t[0]) then
      if |t| >= 2 && IsSingleQuote(t[1]) then Prefixed([t[1]], ReadBody(t[2..]))
      else Some(("", t[1..]))
    else Prefixed([t[0]], ReadBody(t[1..]))
  }

  /** A literal read with `p` in front of its value. */
  function Prefixed(p: string, r: Option<(string, string)>): Option<(string, string)> {
    match r
    case Some((value, rest)) => Some((p + value, rest))
    case None => None
  }

  /** `replace("'", "''")`: every ASCII apostrophe doubled, everything else kept. */
  function Escape(s: string): (r: string)
    ensures '\'' !in s ==> r == s
  {
    if s == [] then ""
    else (if s[0] == '\'' then "''" else [s[0]]) + Escape(s[1..])
  }

  /** Text without the four typographic single quotes PowerShell also recognises. */
  predicate NoTypographicQuote(s: string) {
    forall i :: 0 <= i < |s| ==> s[i] == '\'' || !IsSingleQuote(s[i])
  }

  /** Text that cannot continue a literal's closing quote as a doubled one. */
  predicate EndsLiteral(rest: string) {
    rest == [] || !IsSingleQuote(rest[0])
  }

  /** A character that is not a quote stands for itself. */
  lemma ReadPlain(c: char, t: string)
    requires !IsSingleQuote(c)
    ensures ReadBody([c] + t) == Prefixed([c], ReadBody(t))
  {
    assert ([c] + t)[1..] == t;
  }

  /** A doubled quote stands for one quote. */
  lemma ReadDoubled(c: char, t: string)
    requires IsSingleQuote(c)
    ensures ReadBody([c, c] + t) == Prefixed([c], ReadBody(t))
  {
    assert ([c, c] + t)[2..] == t;
  }

  /** A lone quote ends the literal. */
  lemma ReadClosing(c: char, rest: string)
    requires IsSingleQuote(c) && EndsLiteral(rest)
    ensures ReadBody([c] + rest) == Some(("", rest))
  {
    assert ([c] + rest)[1..] == rest;
  }

  lemma PrefixedTwice(a: string, b: string, r: Option<(string, string)>)
    ensures Prefixed(a, Prefixed(b, r)) == Prefixed(a + b, r)
  {
    match r
    case Some((v, rest)) => assert a + (b + v) == (a + b) + v;
    case None =>
  }

  lemma PrefixedNothing(tail: string)
    ensures ReadBody("" + tail) == Prefixed("", ReadBody(tail))
  {
    assert "" + tail == tail;
    match ReadBody(tail)
    case Some((v, rest)) => assert "" + v == v;
    case None =>
  }

  /** Reading escaped text consumes exactly that text and yields the original. */
  lemma {:induction false} EscapeReadsBack(s: string, tail: string)
    requires NoTypographicQuote(s)
    ensures ReadBody(Escape(s) + tail) == Prefixed(s, ReadBody(tail))
  {
    if s != [] {
      var rest := Escape(s[1..]) + tail;
      assert NoTypographicQuote(s[1..]) by {
        forall i | 0 <= i < |s[1..]| ensures s[1..][i] == '\'' || !IsSingleQuote(s[1..][i]) {
          assert s[1..][i] == s[i + 1];
        }
      }
      EscapeReadsBack(s[1..], tail);
      assert s[0] == '\'' || !IsSingleQuote(s[0]);
      assert Escape(s) + tail == QuoteUnit(s[0]) + rest;
      ReadQuoteUnit(s[0], rest);
      ReadStep(s, ReadBody(tail));
    } else {
      PrefixedNothing(tail);
    }
  }

  /**
   * With the quote pasted between two apostrophes, PowerShell reads back
   * exactly the text that was escaped, provided it holds no typographic quote.
   */
  lemma EscapedLiteralRoundTrip(s: string, rest: string)
    requires NoTypographicQuote(s) && EndsLiteral(rest)
    ensures ReadBody(Escape(s) + "'" + rest) == Some((s, rest))
  {
    var closing := ['\''] + rest;
    EscapeReadsBack(s, closing);
    ReadClosing('\'', rest);
    assert Escape(s) + "'" + rest == Escape(s) + closing;
    assert s + "" == s;
  }

  /**
   * A right single quotation mark ends the literal early: everything after it
   * is read as PowerShell code.
   */
  lemma TypographicQuoteEndsLiteral()
    ensures ReadBody(Escape("\U{2019};x") + "'") == Some(("", ";x'"))
  {
    assert '\'' !in "\U{2019};x";
    ReadClosing('\U{2019}', ";x'");
    assert "\U{2019};x" + "'" == ['\U{2019}'] + ";x'";
  }

  /** Every character PowerShell takes for a single quote doubled. */
  function EscapeQuotes(s: string): (r: string)
    ensures (forall i :: 0 <= i < |s| ==> !IsSingleQuote(s[i])) ==> r == s
  {
    if s == [] then "" else QuoteUnit(s[0]) + EscapeQuotes(s[1..])
  }

  /** One character, doubled when it is a quote. */
  function QuoteUnit(c: char): string {
    if IsSingleQuote(c) then [c, c] else [c]
  }

  /** A character escaped by `QuoteUnit` is read back as itself. */
  lemma ReadQuoteUnit(c: char, rest: string)
    ensures ReadBody(QuoteUnit(c) + rest) == Prefixed([c], ReadBody(rest))
  {
    if IsSingleQuote(c) {
      ReadDoubled(c, rest);
    } else {
      ReadPlain(c, rest);
    }
  }

  /** Reading the first character and then the rest of `s` reads `s`. */
  lemma ReadStep(s: string, r: Option<(string, string)>)
    requires s != []
    ensures Prefixed([s[0]], Prefixed(s[1..], r)) == Prefixed(s, r)
  {
    PrefixedTwice([s[0]], s[1..], r);
    assert [s[0]] + s[1..] == s;
  }

  /** `EscapeQuotes` is read back exactly, whatever the text holds. */
  lemma {:induction false} EscapeQuotesReadsBack(s: string, tail: string)
    ensures ReadBody(EscapeQuotes(s) + tail) == Prefixed(s, ReadBody(tail))
  {
    if s != [] {
      var rest := EscapeQuotes(s[1..]) + tail;
      EscapeQuotesReadsBack(s[1..], tail);
      assert EscapeQuotes(s) + tail == QuoteUnit(s[0]) + rest;
      ReadQuoteUnit(s[0], rest);
      ReadStep(s, ReadBody(tail));
    } else {
      PrefixedNothing(tail);
    }
  }

  /** Every text survives the literal round trip once all five quote characters are doubled. */
  lemma EscapeQuotesRoundTrip(s: string, rest: string)
    requires EndsLiteral(rest)
    ensures ReadBody(EscapeQuotes(s) + "'" + rest) == Some((s, rest))
  {
    var closing := ['\''] + rest;
    EscapeQuotesReadsBack(s, closing);
    ReadClosing('\'', rest);
    assert EscapeQuotes(s) + "'" + rest == EscapeQuotes(s) + closing;
    assert s + "" == s;
  }

  /** For text without typographic quotes the two escapings agree. */
  lemma {:induction false} EscapingsAgree(s: string)
    requires NoTypographicQuote(s)
    ensures EscapeQuotes(s) == Escape(s)
  {
    if s != [] {
      EscapingsAgree(s[1..]);
    }
  }

  // ---------------------------------------------------------------------------
  // The window-match condition.
  // ---------------------------------------------------------------------------

  /** `CaptureWindowParams`: both filters are optional. */
  datatype CaptureWindowParams = CaptureWindowParams(processName: Option<string>, windowTitle: Option<string>)

  /** The four shapes of the `$match` condition. */
  datatype MatchCondition =
    | ProcessAndTitle(process: string, title: string)
    | ProcessOnly(process: string)
    | TitleOnly(title: string)
    | MatchAll

  /** Which condition a request builds, from which filters it carries. */
  function SelectCondition(params: CaptureWindowParams): (c: MatchCondition)
    ensures params.processName.Some? <==> c.ProcessAndTitle? || c.ProcessOnly?
    ensures params.windowTitle.Some? <==> c.ProcessAndTitle? || c.TitleOnly?
    ensures (c.ProcessAndTitle? || c.ProcessOnly?) ==> c.process == params.processName.value
    ensures (c.ProcessAndTitle? || c.TitleOnly?) ==> c.title == params.windowTitle.value
  {
    match (params.processName, params.windowTitle)
    case (Some(p), Some(t)) => ProcessAndTitle(p, t)
    case (Some(p), None) => ProcessOnly(p)
    case (None, Some(t)) => TitleOnly(t)
    case (None, None) => MatchAll
  }

  /** The indentation the process-only condition carries on its continuation lines. */
  const Indent: string := "                    "

  /** The process-only condition up to its literal. */
  const ProcessOnlyHead: string := "$procName = $process.ProcessName\n" + Indent + "$searchName = '"

  /** The process-only condition after its literal, from the line break on. */
  const ProcessOnlyTail: string := "\n" + ProcessOnlyLines

  const ProcessOnlyLines: string :=
    Indent + "$procNameLower = $procName.ToLower()\n"
    + Indent + "$searchNameLower = $searchName.ToLower()\n"
    + Indent + "$match = ($procNameLower -eq $searchNameLower) -or ($procNameLower -eq ($searchNameLower + '.exe'))"
    + " -or ($procNameLower -like ('*' + $searchNameLower + '*'))"

  /** The title-only condition up to its literal. */
  const TitleOnlyHead: string := "$match = $title -ilike '"

  /** The process-and-title condition up to its first literal. */
  const PairHead: string := "$match = ($process.ProcessName -ieq '"

  /** The script text between the two literals of the process-and-title condition. */
  const PairSeparator: string := ") -and ($title -ilike '"

  /** The escaping applied to a pasted value: the source's, or one that doubles every quote character. */
  function EscapeWith(allQuotes: bool, s: string): string {
    if allQuotes then EscapeQuotes(s) else Escape(s)
  }

  /**
   * The condition's PowerShell text (as `list_windows_by_process` builds it),
   * with the pasted values escaped as `allQuotes` says.
   */
  function Render(c: MatchCondition, allQuotes: bool): (r: string)
    ensures c.MatchAll? ==> r == "$match = $true"
  {
    match c
    case ProcessAndTitle(p, t) =>
      PairHead + EscapeWith(allQuotes, p) + "'" + PairSeparator + "*" + EscapeWith(allQuotes, t) + "*')"
    case ProcessOnly(p) => ProcessOnlyHead + EscapeWith(allQuotes, p) + "'" + ProcessOnlyTail
    case TitleOnly(t) => TitleOnlyHead + "*" + EscapeWith(allQuotes, t) + "*'"
    case MatchAll => "$match = $true"
  }

  /** The condition text as the source builds it, with `replace("'", "''")`. */
  function ConditionScript(c: MatchCondition): (r: string)
    ensures QuoteFree(c) ==> r == ConditionScriptIntended(c)
  {
    RenderingsAgree(c);
    Render(c, false)
  }

  /** Without typographic quotes in the values, both escapings render the same text. */
  lemma RenderingsAgree(c: MatchCondition)
    ensures QuoteFree(c) ==> Render(c, false) == Render(c, true)
  {
    if QuoteFree(c) {
      match c
      case ProcessAndTitle(p, t) => EscapingsAgree(p); EscapingsAgree(t);
      case ProcessOnly(p) => EscapingsAgree(p);
      case TitleOnly(t) => EscapingsAgree(t);
      case MatchAll =>
    }
  }

  /** The condition's pasted values hold no typographic single quote. */
  predicate QuoteFree(c: MatchCondition) {
    match c
    case ProcessAndTitle(p, t) => NoTypographicQuote(p) && NoTypographicQuote(t)
    case ProcessOnly(p) => NoTypographicQuote(p)
    case TitleOnly(t) => NoTypographicQuote(t)
    case MatchAll => true
  }

  /** The condition text with every PowerShell quote character doubled. */
  function ConditionScriptIntended(c: MatchCondition): string {
    Render(c, true)
  }

  /** The title-only condition holds one literal, whose value is the `*title*` pattern. */
  lemma TitleLiteralIntended(t: string)
    ensures var script := ConditionScriptIntended(TitleOnly(t));
      StartsWith(script, TitleOnlyHead) && ReadBody(script[|TitleOnlyHead|..]) == Some(("*" + t + "*", ""))
  {
    var script := ConditionScriptIntended(TitleOnly(t));
    var closing := ['*'] + ['\''];
    var body := ['*'] + (EscapeQuotes(t) + closing);
    assert script == TitleOnlyHead + body;
    assert script[|TitleOnlyHead|..] == body;
    ReadClosing('\'', "");
    assert ['\''] + "" == ['\''];
    ReadPlain('*', ['\'']);
    assert ['*'] + "" == "*";
    assert ReadBody(closing) == Some(("*", ""));
    EscapeQuotesReadsBack(t, closing);
    ReadPlain('*', EscapeQuotes(t) + closing);
    assert "*" + (t + "*") == "*" + t + "*";
  }

  /** As the source builds it, a title holding `’` ends the literal, and the rest runs as code. */
  lemma TitleLiteralAsWrittenLeaks()
    ensures var script := ConditionScript(TitleOnly("\U{2019};x"));
      StartsWith(script, TitleOnlyHead) && ReadBody(script[|TitleOnlyHead|..]) == Some(("*", ";x*'"))
  {
    var script := ConditionScript(TitleOnly("\U{2019};x"));
    assert Escape("\U{2019};x") == "\U{2019};x" by {
      assert '\'' !in "\U{2019};x";
    }
    var body := ['*'] + (['\U{2019}'] + ";x*'");
    assert script == TitleOnlyHead + body;
    assert script[|TitleOnlyHead|..] == body;
    ReadClosing('\U{2019}', ";x*'");
    ReadPlain('*', ['\U{2019}'] + ";x*'");
    assert ['*'] + "" == "*";
  }

  /**
   * The process-and-title condition holds two literals: the first reads back
   * as the process name, and the script text after it is the separator
   * followed by the second literal, which reads back as the `*title*`
   * pattern and leaves `)`.
   */
  lemma PairLiteralsIntended(p: string, t: string)
    ensures var script := ConditionScriptIntended(ProcessAndTitle(p, t));
      var second := "*" + EscapeQuotes(t) + "*')";
      StartsWith(script, PairHead) && ReadBody(script[|PairHead|..]) == Some((p, PairSeparator + second)) &&
      ReadBody(second) == Some(("*" + t + "*", ")"))
  {
    var script := ConditionScriptIntended(ProcessAndTitle(p, t));
    var second := "*" + EscapeQuotes(t) + "*')";
    var after := PairSeparator + second;
    assert script == PairHead + EscapeQuotes(p) + "'" + PairSeparator + "*" + EscapeQuotes(t) + "*')";
    Regroup(PairHead, EscapeQuotes(p), "'", PairSeparator, "*", EscapeQuotes(t), "*')");
    assert script[|PairHead|..] == EscapeQuotes(p) + "'" + after;
    assert EndsLiteral(after);
    EscapeQuotesRoundTrip(p, after);
    assert "*'" + ")" == "*')";
    PatternLiteralReadsBack(t, ")");
  }

  /** Concatenation regrouped the way the literals are read. */
  lemma Regroup(a: string, b: string, c: string, d: string, e: string, f: string, g: string)
    ensures a + b + c + d + e + f + g == a + (b + c + (d + (e + f + g)))
  {
  }

  /** A `*value*` pattern literal, all quotes doubled, reads back as the pattern and leaves what follows. */
  lemma PatternLiteralReadsBack(t: string, rest: string)
    requires EndsLiteral(rest)
    ensures ReadBody("*" + EscapeQuotes(t) + ("*'" + rest)) == Some(("*" + t + "*", rest))
  {
    var closing := ['*'] + (['\''] + rest);
    ReadClosing('\'', rest);
    ReadPlain('*', ['\''] + rest);
    assert ['*'] + "" == "*";
    assert ReadBody(closing) == Some(("*", rest));
    EscapeQuotesReadsBack(t, closing);
    ReadPlain('*', EscapeQuotes(t) + closing);
    assert "*" + (t + "*") == "*" + t + "*";
    assert "*" + EscapeQuotes(t) + ("*'" + rest) == ['*'] + (EscapeQuotes(t) + closing);
  }

  /** The process-only condition's one literal holds exactly the process name. */
  lemma ProcessLiteralIntended(p: string)
    ensures var script := ConditionScriptIntended(ProcessOnly(p));
      StartsWith(script, ProcessOnlyHead) && ReadBody(script[|ProcessOnlyHead|..]) == Some((p, ProcessOnlyTail))
  {
    var script := ConditionScriptIntended(ProcessOnly(p));
    var body := EscapeQuotes(p) + "'" + ProcessOnlyTail;
    assert script == ProcessOnlyHead + body;
    assert script[|ProcessOnlyHead|..] == body;
    assert EndsLiteral(ProcessOnlyTail);
    EscapeQuotesRoundTrip(p, ProcessOnlyTail);
  }

  /** PowerShell's `-like '*x*'` on values without wildcards, and `-ieq`: case-insensitive. */
  predicate ContainsIgnoringCase(s: string, t: string) {
    Contains(Lower(s), Lower(t))
  }

  /**
   * Whether a window of process `name` with title `title` satisfies the
   * condition, as PowerShell evaluates the text, for values without wildcards.
   */
  predicate ConditionMatches(c: MatchCondition, name: string, title: string) {
    match c
    case ProcessAndTitle(p, t) => Lower(name) == Lower(p) && ContainsIgnoringCase(title, t)
    case ProcessOnly(p) =>
      var n, s := Lower(name), Lower(p);
      n == s || n == s + ".exe" || Contains(n, s)
    case TitleOnly(t) => ContainsIgnoringCase(title, t)
    case MatchAll => true
  }

  /** The exact and `.exe` tests of the process-only condition add nothing to the containment test. */
  lemma ProcessOnlyIsContainment(p: string, name: string, title: string)
    ensures ConditionMatches(ProcessOnly(p), name, title) <==> ContainsIgnoringCase(name, p)
  {
    var n, s := Lower(name), Lower(p);
    if n == s {
      ContainsPrefix(n, s);
    } else if n == s + ".exe" {
      assert n[..|s|] == s;
      ContainsPrefix(n, s);
    }
  }

  /**
   * What a request's filters demand: with both, the process name must equal
   * the given one and the title contain the given text; a process name alone
   * only has to be contained; a title alone has to be contained; no filter
   * admits every window.
   */
  lemma SelectedConditionMeaning(params: CaptureWindowParams, name: string, title: string)
    ensures ConditionMatches(SelectCondition(params), name, title) <==>
      (params.processName.Some? && params.windowTitle.Some? ==> Lower(name) == Lower(params.processName.value)) &&
      (params.processName.Some? && params.windowTitle.None? ==> ContainsIgnoringCase(name, params.processName.value)) &&
      (params.windowTitle.Some? ==> ContainsIgnoringCase(title, params.windowTitle.value))
  {
    if params.processName.Some? && params.windowTitle.None? {
      ProcessOnlyIsContainment(params.processName.value, name, title);
    }
  }

  /** Adding a title to a process filter only removes windows. */
  lemma AddingTitleNarrows(p: string, t: string, name: string, title: string)
    requires ConditionMatches(SelectCondition(CaptureWindowParams(Some(p), Some(t))), name, title)
    ensures ConditionMatches(SelectCondition(CaptureWindowParams(Some(p), None)), name, title)
    ensures ConditionMatches(SelectCondition(CaptureWindowParams(None, Some(t))), name, title)
  {
    ContainsPrefix(Lower(name), Lower(p));
  }

  /** Letter case never changes whether a window matches. */
  lemma MatchIgnoresCase(c: MatchCondition, name: string, title: string)
    ensures ConditionMatches(c, Lower(name), Lower(title)) == ConditionMatches(c, name, title)
  {
    LowerIdempotent(name);
    LowerIdempotent(title);
  }

  // ---------------------------------------------------------------------------
  // The JSON PowerShell returns.
  // ---------------------------------------------------------------------------

  /** A parsed JSON value (`serde_json::Value`); numbers are kept only as integers. */
  datatype Json =
    | Null
    | Bool(b: bool)
    | Number(n: int)
    | Str(s: string)
    | Array(items: seq<Json>)
    | Object(fields: map<string, Json>)

  /** `value[key]`: the field of an object, `Null` for a missing field or a non-object. */
  function Index(v: Json, key: string): (r: Json)
    ensures v.Object? && key in v.fields ==> r == v.fields[key]
    ensures r != Null ==> v.Object? && key in v.fields
  {
    if v.Object? && key in v.fields then v.fields[key] else Null
  }

  function AsStr(v: Json): (r: Option<string>)
    ensures r.Some? <==> v.Str?
    ensures r.Some? ==> r.value == v.s
  {
    if v.Str? then Some(v.s) else None
  }

  function AsBool(v: Json): (r: Option<bool>)
    ensures r.Some? <==> v.Bool?
    ensures r.Some? ==> r.value == v.b
  {
    if v.Bool? then Some(v.b) else None
  }

  /** `WindowInfo`. */
  datatype WindowInfo = WindowInfo(title: string, processName: string, isActive: bool)

  /** One entry: both names must be strings; `IsActive` defaults to false. */
  function ToWindowInfo(w: Json): (r: Option<WindowInfo>)
    ensures r.Some? <==> Index(w, "Title").Str? && Index(w, "ProcessName").Str?
    ensures r.Some? ==> r.value.title == Index(w, "Title").s && r.value.processName == Index(w, "ProcessName").s
    ensures r.Some? ==> (r.value.isActive <==> Index(w, "IsActive") == Bool(true))
  {
    match (AsStr(Index(w, "Title")), AsStr(Index(w, "ProcessName")))
    case (Some(title), Some(name)) => Some(WindowInfo(title, name, AsBool(Index(w, "IsActive")).UnwrapOr(false)))
    case _ => None
  }

  /** The `filter_map` over the entries. */
  function ExtractWindows(ws: seq<Json>): (r: seq<WindowInfo>)
    ensures |r| <= |ws|
  {
    if ws == [] then []
    else
      match ToWindowInfo(ws[0])
      case Some(info) => [info] + ExtractWindows(ws[1..])
      case None => ExtractWindows(ws[1..])
  }

  /** Extraction works entry by entry, keeping their order. */
  lemma {:induction false} ExtractWindowsAppend(a: seq<Json>, b: seq<Json>)
    ensures ExtractWindows(a + b) == ExtractWindows(a) + ExtractWindows(b)
  {
    if a != [] {
      ExtractWindowsAppend(a[1..], b);
      assert (a + b)[1..] == a[1..] + b;
    } else {
      assert a + b == b;
    }
  }

  /** A window is listed exactly when some entry describes it. */
  lemma {:induction false} ExtractWindowsMembers(ws: seq<Json>, info: WindowInfo)
    ensures info in ExtractWindows(ws) <==> exists i :: 0 <= i < |ws| && ToWindowInfo(ws[i]) == Some(info)
  {
    if ws != [] {
      ExtractWindowsMembers(ws[1..], info);
      if exists i :: 0 <= i < |ws| && ToWindowInfo(ws[i]) == Some(info) {
        var i :| 0 <= i < |ws| && ToWindowInfo(ws[i]) == Some(info);
        if i > 0 {
          assert ToWindowInfo(ws[1..][i - 1]) == Some(info);
        }
      }
      if info in ExtractWindows(ws[1..]) {
        var i :| 0 <= i < |ws[1..]| && ToWindowInfo(ws[1..][i]) == Some(info);
        assert ToWindowInfo(ws[i + 1]) == Some(info);
      }
    }
  }

  /** `ConvertTo-Json` output as a list: an array as it is, a single object as one entry, anything else as none. */
  function Normalize(v: Json): (r: seq<Json>)
    ensures v.Array? ==> r == v.items
    ensures v.Object? ==> r == [v]
    ensures !v.Array? && !v.Object? ==> r == []
  {
    match v
    case Array(items) => items
    case Object(_) => [v]
    case _ => []
  }

  /** `list_windows_by_process` once the JSON is parsed. */
  function ListWindows(parsed: Json): (r: seq<WindowInfo>)
    ensures |r| <= |Normalize(parsed)|
    ensures parsed.Object? ==> |r| <= 1
    ensures !parsed.Array? && !parsed.Object? ==> r == []
  {
    ExtractWindows(Normalize(parsed))
  }

  /** One window is reported as one object and listed as one window. */
  lemma SingleWindowListed(w: Json)
    requires w.Object? && ToWindowInfo(w).Some?
    ensures ListWindows(w) == [ToWindowInfo(w).value]
  {
    assert Normalize(w)[1..] == [];
  }

  /** An array of windows is listed as its entries, each in turn. */
  lemma ArrayListedEntryWise(a: seq<Json>, b: seq<Json>)
    ensures ListWindows(Array(a + b)) == ListWindows(Array(a)) + ListWindows(Array(b))
  {
    ExtractWindowsAppend(a, b);
  }

  /**
   * `get_system_context` as written: the text must parse as an array, else no
   * window is listed (`None` stands for text that is not JSON at all).
   */
  function OpenWindowsAsWritten(parsed: Option<Json>): (r: seq<WindowInfo>)
    ensures parsed.Some? && parsed.value.Array? ==> r == ListWindows(parsed.value)
    ensures parsed.None? || !parsed.value.Array? ==> r == []
  {
    match parsed
    case Some(Array(items)) => ExtractWindows(items)
    case _ => []
  }

  /** A desktop with exactly one window is reported as having none. */
  lemma SingleWindowLostAsWritten(w: Json)
    requires w.Object? && ToWindowInfo(w).Some?
    ensures OpenWindowsAsWritten(Some(w)) == []
    ensures ListWindows(w) != []
  {
    SingleWindowListed(w);
  }

  /** `get_system_context` with the array-or-object normalisation `list_windows_by_process` applies. */
  function OpenWindows(parsed: Option<Json>): (r: seq<WindowInfo>)
    ensures parsed.None? ==> r == []
    ensures parsed.Some? && !parsed.value.Object? ==> r == OpenWindowsAsWritten(parsed)
  {
    match parsed
    case Some(v) => ListWindows(v)
    case None => []
  }

  /** The normalised listing agrees with the source on arrays and keeps a single window. */
  lemma OpenWindowsKeepsSingleWindow(parsed: Option<Json>)
    ensures parsed.Some? && parsed.value.Array? ==> OpenWindows(parsed) == OpenWindowsAsWritten(parsed)
    ensures parsed.Some? && parsed.value.Object? && ToWindowInfo(parsed.value).Some? ==>
      OpenWindows(parsed) == [ToWindowInfo(parsed.value).value]
  {
    if parsed.Some? && parsed.value.Object? && ToWindowInfo(parsed.value).Some? {
      SingleWindowListed(parsed.value);
    }
  }
}
