/**
 * The pure parts of saving a capture in commands.rs: the file name built from
 * the sanitised process name, the sanitised window title and the timestamp,
 * and the removal of the `\\?\` prefix from a canonical Windows path.
 */
module CaptureFiles {
  import opened Results
  import opened Text

  /** `char::is_alphanumeric`, restricted to ASCII letters and digits. */
  predicate IsAlphanumeric(c: char) {
    'a' <= c <= 'z' || 'A' <= c <= 'Z' || '0' <= c <= '9'
  }

  /** The characters a window title keeps in a file name. */
  predicate TitleChar(c: char) {
    IsAlphanumeric(c) || c == '-' || c == '_' || c == '.'
  }

  /** The characters a process name keeps in a file name. */
  predicate ProcessChar(c: char) {
    IsAlphanumeric(c) || c == '-' || c == '_'
  }

  /** The window title with every other character replaced by `_`. */
  function SanitizeTitle(title: string): (r: string)
    ensures |r| == |title|
    ensures forall i :: 0 <= i < |r| ==> TitleChar(r[i])
    ensures forall i :: 0 <= i < |r| && TitleChar(title[i]) ==> r[i] == title[i]
    ensures forall i :: 0 <= i < |r| && !TitleChar(title[i]) ==> r[i] == '_'
  {
    seq(|title|, i requires 0 <= i < |title| => if TitleChar(title[i]) then title[i] else '_')
  }

  /** The process name with every other character replaced by `_`. */
  function SanitizeProcess(name: string): (r: string)
    ensures |r| == |name|
    ensures forall i :: 0 <= i < |r| ==> ProcessChar(r[i])
    ensures forall i :: 0 <= i < |r| && ProcessChar(name[i]) ==> r[i] == name[i]
    ensures forall i :: 0 <= i < |r| && !ProcessChar(name[i]) ==> r[i] == '_'
  {
    seq(|name|, i requires 0 <= i < |name| => if ProcessChar(name[i]) then name[i] else '_')
  }

  /** Sanitising twice is sanitising once. */
  lemma SanitizeIdempotent(title: string, name: string)
    ensures SanitizeTitle(SanitizeTitle(title)) == SanitizeTitle(title)
    ensures SanitizeProcess(SanitizeProcess(name)) == SanitizeProcess(name)
  {
  }

  /** `{process}_{title}_{timestamp}.png`. */
  function FileName(process: string, title: string, timestamp: nat): (r: string)
    ensures StartsWith(r, SanitizeProcess(process) + "_" + SanitizeTitle(title) + "_")
    ensures |r| >= 7 && r[|r| - 4..] == ".png"
  {
    SanitizeProcess(process) + "_" + SanitizeTitle(title) + "_" + NatToDecimal(timestamp) + ".png"
  }

  /** A character that would let the name reach outside the captures directory, or that Windows forbids. */
  predicate PathSpecial(c: char) {
    c == '/' || c == '\\' || c == ':' || c == '*' || c == '?' || c == '"' || c == '<' || c == '>' || c == '|'
  }

  /**
   * The file name is one path component in the captures directory: it holds
   * no separator or other character Windows forbids in names, it is neither
   * `.` nor `..`, and it ends in `.png`.
   */
  lemma FileNameStaysInDirectory(process: string, title: string, timestamp: nat)
    ensures var name := FileName(process, title, timestamp);
      (forall i :: 0 <= i < |name| ==> !PathSpecial(name[i])) &&
      name != "." && name != ".." && |name| >= 7 && name[|name| - 4..] == ".png"
  {
    var name := FileName(process, title, timestamp);
    var p, t, d := SanitizeProcess(process), SanitizeTitle(title), NatToDecimal(timestamp);
    assert name == p + "_" + t + "_" + d + ".png";
    forall i | 0 <= i < |name|
      ensures !PathSpecial(name[i])
    {
      if i < |p| {
        assert name[i] == p[i];
      } else if i == |p| {
      } else if i < |p| + 1 + |t| {
        assert name[i] == t[i - |p| - 1];
      } else if i == |p| + 1 + |t| {
      } else if i < |p| + 2 + |t| + |d| {
        assert name[i] == d[i - |p| - 2 - |t|];
      } else {
        assert name[i] == ".png"[i - |p| - 2 - |t| - |d|];
      }
    }
  }

  /**
   * The timestamp a capture file name ends with: the digits between the last
   * `_` and the `.png` extension.
   */
  function TimestampOf(name: string): Option<nat> {
    if |name| < 4 || name[|name| - 4..] != ".png" then None
    else
      var stem := name[..|name| - 4];
      match LastIndexOf(stem, '_')
      case None => None
      case Some(k) =>
        var digits := stem[k + 1..];
        if digits != [] && AllDigits(digits) then Some(DecimalValue(digits)) else None
  }

  /** The timestamp is read back from the file name it was written into. */
  lemma TimestampRoundTrip(process: string, title: string, timestamp: nat)
    ensures TimestampOf(FileName(process, title, timestamp)) == Some(timestamp)
  {
    var p, t, d := SanitizeProcess(process), SanitizeTitle(title), NatToDecimal(timestamp);
    var name := FileName(process, title, timestamp);
    var stem := p + "_" + t + "_" + d;
    assert name == stem + ".png";
    assert name[|name| - 4..] == ".png";
    assert name[..|name| - 4] == stem;
    var k := |p| + 1 + |t|;
    assert stem[k] == '_';
    assert stem[k + 1..] == d;
    assert '_' !in d;
    LastIndexIs(stem, '_', k);
    DecimalRoundTrip(timestamp);
  }

  /** The prefix Windows puts on extended-length canonical paths: `\\?\`. */
  const ExtendedPrefix: string := "\\\\?\\"

  /** A canonical path without the extended-length prefix. */
  function StripExtendedPrefix(path: string): (r: string)
    ensures StartsWith(path, ExtendedPrefix) ==> ExtendedPrefix + r == path
    ensures !StartsWith(path, ExtendedPrefix) ==> r == path
  {
    if StartsWith(path, ExtendedPrefix) then path[|ExtendedPrefix|..] else path
  }

  /** Removing the prefix undoes adding it. */
  lemma StripAddedPrefix(path: string)
    ensures StripExtendedPrefix(ExtendedPrefix + path) == path
  {
    assert (ExtendedPrefix + path)[..|ExtendedPrefix|] == ExtendedPrefix;
  }
}
