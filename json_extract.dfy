/**
 * `extract_json_from_output` in commands.rs: PowerShell output may carry
 * warnings around the JSON it prints, so the text from the first `[` to its
 * matching `]` is taken; failing that, from the first `{` to its matching `}`;
 * failing that, the whole output, trimmed. Positions are character positions
 * (the delimiters are ASCII, so Rust's byte positions cut at the same places).
 */
module JsonExtract {
  import opened Results
  import opened Text

  /** How one character moves the nesting depth. */
  function Delta(c: char, open: char, close: char): int {
    if c == open then 1 else if c == close then -1 else 0
  }

  /** The nesting depth at the end of `t`: openings minus closings. */
  function Depth(t: string, open: char, close: char): int {
    if t == [] then 0 else Depth(t[..|t| - 1], open, close) + Delta(t[|t| - 1], open, close)
  }

  /** The closing delimiter at `j` brings the depth counted from `start` back to zero. */
  ghost predicate Closes(s: string, start: nat, j: int, open: char, close: char) {
    start <= j < |s| && s[j] == close && Depth(s[start..j + 1], open, close) == 0
  }

  /** `j` is the first position that closes the group opened at `start`. */
  ghost predicate IsFirstClose(s: string, start: nat, j: int, open: char, close: char) {
    Closes(s, start, j, open, close) && forall k :: start <= k < j ==> !Closes(s, start, k, open, close)
  }

  /** A group opened at `start` that closes somewhere has a first closing position. */
  lemma {:induction false} FirstCloseExists(s: string, start: nat, j: int, open: char, close: char)
    requires Closes(s, start, j, open, close)
    ensures exists k :: IsFirstClose(s, start, k, open, close)
    decreases j
  {
    if !IsFirstClose(s, start, j, open, close) {
      var k :| start <= k < j && Closes(s, start, k, open, close);
      FirstCloseExists(s, start, k, open, close);
    }
  }

  lemma FirstCloseUnique(s: string, start: nat, j: int, k: int, open: char, close: char)
    requires IsFirstClose(s, start, j, open, close) && IsFirstClose(s, start, k, open, close)
    ensures j == k
  {
  }

  /** The position of the delimiter matching the one at `start`, if the depth ever returns to zero. */
  ghost function FirstClose(s: string, start: nat, open: char, close: char): (r: Option<nat>)
    ensures r.Some? ==> IsFirstClose(s, start, r.value, open, close)
    ensures r.None? ==> forall j :: !Closes(s, start, j, open, close)
  {
    if exists j :: Closes(s, start, j, open, close) then
      var j0 :| Closes(s, start, j0, open, close);
      FirstCloseExists(s, start, j0, open, close);
      var j :| IsFirstClose(s, start, j, open, close);
      Some(j)
    else
      None
  }

  /** What one scan, for one kind of delimiter, yields. */
  datatype Section =
    | NoMatch              // no opening delimiter, or no closing one anywhere: try the next kind
    | Slice(text: string)  // the text returned to the caller
    | SlicePanic           // `output[start..=end]` with `end + 1 < start`: the Rust slice panics

  /** One scan: the matched group, else everything up to the last closing delimiter. */
  ghost function Scan(s: string, open: char, close: char): (r: Section)
    ensures open in s && close in s ==> !r.NoMatch?
    ensures r.SlicePanic? ==>
      FirstIndexOf(s, open).Some? && LastIndexOf(s, close).Some? &&
      LastIndexOf(s, close).value + 1 < FirstIndexOf(s, open).value
  {
    match FirstIndexOf(s, open)
    case None => NoMatch
    case Some(start) =>
      match FirstClose(s, start, open, close)
      case Some(end) => Slice(Trim(s[start..end + 1]))
      case None =>
        match LastIndexOf(s, close)
        case None => NoMatch
        case Some(endPos) => if start <= endPos + 1 then Slice(Trim(s[start..endPos + 1])) else SlicePanic
  }

  /** The text `extract_json_from_output` returns; `None` where it panics. */
  ghost function Extract(s: string): (r: Option<string>)
    ensures Scan(s, '[', ']').Slice? ==> r == Some(Scan(s, '[', ']').text)
    ensures r.None? ==> Scan(s, '[', ']').SlicePanic? || Scan(s, '{', '}').SlicePanic?
  {
    match Scan(s, '[', ']')
    case Slice(t) => Some(t)
    case SlicePanic => None
    case NoMatch =>
      match Scan(s, '{', '}')
      case Slice(t) => Some(t)
      case SlicePanic => None
      case NoMatch => Some(Trim(s))
  }

  /** The depth after one more character. */
  lemma DepthStep(s: string, start: nat, i: nat, open: char, close: char)
    requires start <= i < |s|
    ensures Depth(s[start..i + 1], open, close) == Depth(s[start..i], open, close) + Delta(s[i], open, close)
  {
    assert s[start..i + 1][..i - start] == s[start..i];
  }

  /** The first closing position, once found, is what `FirstClose` names. */
  lemma FirstCloseIs(s: string, start: nat, j: int, open: char, close: char)
    requires IsFirstClose(s, start, j, open, close)
    ensures FirstClose(s, start, open, close) == Some(j)
  {
    FirstCloseUnique(s, start, j, FirstClose(s, start, open, close).value, open, close);
  }

  /** How `Scan` ends when the group opened at `start` never closes. */
  lemma ScanWithoutClose(s: string, start: nat, open: char, close: char)
    requires FirstIndexOf(s, open) == Some(start)
    requires forall k :: start <= k < |s| ==> !Closes(s, start, k, open, close)
    ensures Scan(s, open, close) ==
      match LastIndexOf(s, close)
      case None => NoMatch
      case Some(endPos) => if start <= endPos + 1 then Slice(Trim(s[start..endPos + 1])) else SlicePanic
  {
    assert FirstClose(s, start, open, close).None?;
  }

  /** How `Scan` ends when the group opened at `start` first closes at `j`. */
  lemma ScanFound(s: string, start: nat, j: int, open: char, close: char)
    requires FirstIndexOf(s, open) == Some(start)
    requires IsFirstClose(s, start, j, open, close)
    ensures Scan(s, open, close) == Slice(Trim(s[start..j + 1]))
  {
    FirstCloseIs(s, start, j, open, close);
  }

  /** One scan as the source runs it: a counter over the characters from the first opening delimiter. */
  method ScanDelimited(s: string, open: char, close: char) returns (section: Section)
    requires open != close
    ensures section == Scan(s, open, close)
  {
    var found := FirstIndexOf(s, open);
    if found.None? {
      return NoMatch;
    }
    var start := found.value;
    var count := 0;
    var i := start;
    while i < |s|
      invariant start <= i <= |s|
      invariant count == Depth(s[start..i], open, close)
      invariant forall k :: start <= k < i ==> !Closes(s, start, k, open, close)
    {
      DepthStep(s, start, i, open, close);
      if s[i] == open {
        count := count + 1;
      } else if s[i] == close {
        count := count - 1;
        if count == 0 {
          ScanFound(s, start, i, open, close);
          return Slice(Trim(s[start..i + 1]));
        }
      }
      assert !Closes(s, start, i, open, close);
      i := i + 1;
    }
    ScanWithoutClose(s, start, open, close);
    var last := LastIndexOf(s, close);
    if last.None? {
      return NoMatch;
    }
    var endPos := last.value;
    if start <= endPos + 1 {
      return Slice(Trim(s[start..endPos + 1]));
    }
    return SlicePanic;
  }

  /** `extract_json_from_output`: arrays first, then objects, then the trimmed output. */
  method ExtractJsonFromOutput(output: string) returns (r: Option<string>)
    ensures r == Extract(output)
  {
    var arrays := ScanDelimited(output, '[', ']');
    match arrays
    case Slice(t) => return Some(t);
    case SlicePanic => return None;
    case NoMatch =>
    var objects := ScanDelimited(output, '{', '}');
    match objects
    case Slice(t) => return Some(t);
    case SlicePanic => return None;
    case NoMatch =>
    return Some(Trim(output));
  }

  // ---------------------------------------------------------------------------
  // What the extracted text is.
  // ---------------------------------------------------------------------------

  /** The depth of a concatenation is the sum of the depths. */
  lemma {:induction false} DepthAppend(a: string, b: string, open: char, close: char)
    ensures Depth(a + b, open, close) == Depth(a, open, close) + Depth(b, open, close)
    decreases |b|
  {
    if b == [] {
      assert a + b == a;
    } else {
      DepthAppend(a, b[..|b| - 1], open, close);
      assert (a + b)[..|a + b| - 1] == a + b[..|b| - 1];
    }
  }

  /** Text without delimiters leaves the depth unchanged. */
  lemma {:induction false} DepthNeutral(t: string, open: char, close: char)
    requires open !in t && close !in t
    ensures Depth(t, open, close) == 0
  {
    if t != [] {
      DepthNeutral(t[..|t| - 1], open, close);
    }
  }

  /** A delimited group: it opens and closes, and no proper prefix is closed yet. */
  ghost predicate Balanced(t: string, open: char, close: char) {
    |t| >= 2 && t[0] == open && t[|t| - 1] == close && Depth(t, open, close) == 0 &&
    forall p :: 0 < p < |t| ==> Depth(t[..p], open, close) > 0
  }

  /** Up to the first closing position, the depth counted from an opening delimiter stays positive. */
  lemma {:induction false} DepthPositiveBeforeClose(s: string, start: nat, j: int, p: int, open: char, close: char)
    requires open != close && start < |s| && s[start] == open
    requires IsFirstClose(s, start, j, open, close)
    requires start < p <= j
    ensures Depth(s[start..p], open, close) > 0
    decreases p
  {
    DepthStep(s, start, p - 1, open, close);
    if p > start + 1 {
      DepthPositiveBeforeClose(s, start, j, p - 1, open, close);
      assert !Closes(s, start, p - 1, open, close);
    }
  }

  /** The group from an opening delimiter to its first closing position is balanced. */
  lemma FirstCloseIsBalanced(s: string, start: nat, j: int, open: char, close: char)
    requires open != close && start < |s| && s[start] == open
    requires IsFirstClose(s, start, j, open, close)
    ensures Balanced(s[start..j + 1], open, close)
  {
    var t := s[start..j + 1];
    DepthStep(s, start, start, open, close);
    forall p | 0 < p < |t|
      ensures Depth(t[..p], open, close) > 0
    {
      assert t[..p] == s[start..start + p];
      DepthPositiveBeforeClose(s, start, j, start + p, open, close);
    }
  }

  /** A scan whose first opening delimiter closes yields exactly that balanced group. */
  lemma ScanFindsGroup(s: string, start: nat, end: int, open: char, close: char)
    requires open != close && !IsWhitespace(open) && !IsWhitespace(close)
    requires start < |s| && s[start] == open && open !in s[..start]
    requires IsFirstClose(s, start, end, open, close)
    ensures Scan(s, open, close) == Slice(s[start..end + 1])
    ensures Balanced(s[start..end + 1], open, close)
  {
    var t := s[start..end + 1];
    assert t[0] == open && t[|t| - 1] == close;
    TrimTight(t);
    FirstIndexIs(s, open, start);
    ScanFound(s, start, end, open, close);
    FirstCloseIsBalanced(s, start, end, open, close);
  }

  /** A scan finds nothing when one of its two delimiters is absent. */
  lemma ScanNoMatch(s: string, open: char, close: char)
    requires open !in s || close !in s
    ensures Scan(s, open, close) == NoMatch
  {
    var first := FirstIndexOf(s, open);
    if first.Some? {
      ScanWithoutClose(s, first.value, open, close);
    }
  }

  /**
   * When the output holds a `[` whose group closes, the result is exactly the
   * text from the first `[` to its matching `]`, a balanced group, whatever
   * comes before it, including an earlier `{`.
   */
  lemma ArrayTakesPrecedence(s: string, start: nat, end: int)
    requires start < |s| && s[start] == '[' && '[' !in s[..start]
    requires IsFirstClose(s, start, end, '[', ']')
    ensures Extract(s) == Some(s[start..end + 1])
    ensures Balanced(s[start..end + 1], '[', ']')
  {
    ScanFindsGroup(s, start, end, '[', ']');
  }

  /**
   * A `[` that never closes falls back to the last `]`: the text from the
   * first `[` to it, trimmed, or a panic when that `]` lies before the `[`
   * with at least one character between them.
   */
  lemma UnclosedArrayFallsBack(s: string, start: nat, last: nat)
    requires start < |s| && s[start] == '[' && '[' !in s[..start]
    requires forall j :: !Closes(s, start, j, '[', ']')
    requires last < |s| && s[last] == ']' && ']' !in s[last + 1..]
    ensures start <= last + 1 ==> Extract(s) == Some(Trim(s[start..last + 1]))
    ensures last + 1 < start ==> Extract(s) == None
  {
    FirstIndexIs(s, '[', start);
    LastIndexIs(s, ']', last);
    ScanWithoutClose(s, start, '[', ']');
  }

  /** Without a complete `[`...`]` pair, an object group is extracted the same way. */
  lemma ObjectWhenNoArray(s: string, start: nat, end: int)
    requires '[' !in s || ']' !in s
    requires start < |s| && s[start] == '{' && '{' !in s[..start]
    requires IsFirstClose(s, start, end, '{', '}')
    ensures Extract(s) == Some(s[start..end + 1])
    ensures Balanced(s[start..end + 1], '{', '}')
  {
    ScanNoMatch(s, '[', ']');
    ScanFindsGroup(s, start, end, '{', '}');
  }

  /** Output without a complete delimiter pair of either kind is returned trimmed. */
  lemma PlainOutputTrimmed(s: string)
    requires '[' !in s || ']' !in s
    requires '{' !in s || '}' !in s
    ensures Extract(s) == Some(Trim(s))
  {
    ScanNoMatch(s, '[', ']');
    ScanNoMatch(s, '{', '}');
  }

  /** The panic: the last `]` sits before the first `[` with a character between them. */
  lemma ReversedBracketsPanic()
    ensures Extract("]x[") == None
  {
    var s := "]x[";
    assert s[2] == '[' && '[' !in s[..2];
    assert s[0] == ']' && ']' !in s[1..];
    UnclosedArrayFallsBack(s, 2, 0);
  }

  // ---------------------------------------------------------------------------
  // The array-first rule applied to an object that holds a `[`.
  // ---------------------------------------------------------------------------

  /**
   * As written: an object whose string field contains `[1]` yields `[1]`, not
   * the object.
   */
  lemma ObjectWithBracketYieldsInnerArray()
    ensures Extract("{\"t\":\"[1]\"}") == Some("[1]")
  {
    var s := "{\"t\":\"[1]\"}";
    assert s == "{\"t\":\"" + "[1]" + "\"}";
    InnerArrayCloses("{\"t\":\"", "\"}");
    ArrayTakesPrecedence(s, 6, 8);
    assert s[6..9] == "[1]";
  }

  /** In `before + "[1]" + after`, with no `[` before it, the `]` of `[1]` closes the first `[`. */
  lemma InnerArrayCloses(before: string, after: string)
    requires '[' !in before
    ensures var s := before + "[1]" + after;
      s[|before|] == '[' && '[' !in s[..|before|] && IsFirstClose(s, |before|, |before| + 2, '[', ']')
  {
    var s := before + "[1]" + after;
    var n := |before|;
    assert s[..n] == before;
    assert s[n..n + 3] == "[" + "1" + "]";
    assert s[n..n + 2] == "[" + "1";
    DepthAppend("[", "1", '[', ']');
    DepthAppend("[1", "]", '[', ']');
    assert Closes(s, n, n + 2, '[', ']');
    assert !Closes(s, n, n, '[', ']') && !Closes(s, n, n + 1, '[', ']');
  }

  /** The first opening delimiter of either kind, and its kind. */
  function FirstOpening(s: string): (r: Option<(nat, char)>)
    ensures r.Some? ==> r.value.0 < |s| && s[r.value.0] == r.value.1 && r.value.1 in "[{"
    ensures r.Some? ==> '[' !in s[..r.value.0] && '{' !in s[..r.value.0]
    ensures r.None? ==> '[' !in s && '{' !in s
  {
    match (FirstIndexOf(s, '['), FirstIndexOf(s, '{'))
    case (None, None) => None
    case (Some(a), None) => Some((a, '['))
    case (None, Some(o)) => Some((o, '{'))
    case (Some(a), Some(o)) => if o < a then Some((o, '{')) else Some((a, '['))
  }

  /**
   * As intended: the scan starts with whichever delimiter kind opens first, so
   * the outermost JSON value is extracted, array or object; the other kind
   * and the trimmed output remain the fallbacks.
   */
  ghost function ExtractIntended(s: string): Option<string> {
    var objectFirst := match FirstOpening(s) case Some((_, c)) => c == '{' case None => false;
    var (open1, close1, open2, close2) := if objectFirst then ('{', '}', '[', ']') else ('[', ']', '{', '}');
    match Scan(s, open1, close1)
    case Slice(t) => Some(t)
    case SlicePanic => None
    case NoMatch =>
      match Scan(s, open2, close2)
      case Slice(t) => Some(t)
      case SlicePanic => None
      case NoMatch => Some(Trim(s))
  }

  /** The first opening delimiter is the one at `start` when neither kind occurs before it. */
  lemma FirstOpeningIs(s: string, start: nat)
    requires start < |s| && s[start] in "[{" && '[' !in s[..start] && '{' !in s[..start]
    ensures FirstOpening(s) == Some((start, s[start]))
  {
  }

  /**
   * The intended extraction returns the balanced group opened by the first
   * delimiter in the output, whichever kind it is, when that group closes.
   */
  lemma IntendedExtractsOutermostGroup(s: string, start: nat, end: int, open: char, close: char)
    requires (open, close) == ('[', ']') || (open, close) == ('{', '}')
    requires start < |s| && s[start] == open && '[' !in s[..start] && '{' !in s[..start]
    requires IsFirstClose(s, start, end, open, close)
    ensures ExtractIntended(s) == Some(s[start..end + 1])
    ensures Balanced(s[start..end + 1], open, close)
  {
    FirstOpeningIs(s, start);
    ScanFindsGroup(s, start, end, open, close);
  }

  /** For the object that misleads the source, the intended extraction returns the whole object. */
  lemma IntendedKeepsObjectWithBracket()
    ensures ExtractIntended("{\"t\":\"[1]\"}") == Some("{\"t\":\"[1]\"}")
  {
    var s := "{\"t\":\"[1]\"}";
    var middle := "\"t\":\"[1]\"";
    assert s == "{" + middle + "}";
    assert s[..0] == [] && s[0..11] == s;
    DepthNeutral(middle, '{', '}');
    DepthAppend("{", middle, '{', '}');
    DepthAppend("{" + middle, "}", '{', '}');
    forall k | 0 <= k < 10
      ensures !Closes(s, 0, k, '{', '}')
    {
      assert s[k] != '}';
    }
    assert Closes(s, 0, 10, '{', '}');
    IntendedExtractsOutermostGroup(s, 0, 10, '{', '}');
  }
}
