/** The two JavaScript string operations the calculator's state logic relies
    on: `trim()` (used to reject blank input) and `slice(0, -1)` (the backspace
    button). */
module JsString {

  /** The characters `String.prototype.trim` removes: the WhiteSpace and
      LineTerminator productions of the ECMAScript language specification
      (tab, vertical tab, form feed, space, no-break space, byte order mark,
      the other space separators, line feed, carriage return, line separator
      and paragraph separator). */
  predicate IsWhiteSpace(c: char) {
    || c == '\t' || c == '\U{000B}' || c == '\U{000C}' || c == ' '
    || c == '\U{00A0}' || c == '\U{FEFF}' || c == '\U{1680}'
    || ('\U{2000}' <= c <= '\U{200A}')
    || c == '\U{202F}' || c == '\U{205F}' || c == '\U{3000}'
    || c == '\n' || c == '\r' || c == '\U{2028}' || c == '\U{2029}'
  }

  /** Every character of `s` is white space (vacuously so for the empty text). */
  predicate Blank(s: string) {
    forall c :: c in s ==> IsWhiteSpace(c)
  }

  /** Drops leading white space. */
  function TrimStart(s: string): (r: string)
    ensures |r| <= |s| && r == s[|s| - |r|..] && Blank(s[..|s| - |r|])
    ensures |r| > 0 ==> !IsWhiteSpace(r[0])
    decreases |s|
  {
    if |s| > 0 && IsWhiteSpace(s[0]) then
      var r := TrimStart(s[1..]);
      assert s[..|s| - |r|] == [s[0]] + s[1..][..|s| - 1 - |r|];
      r
    else s
  }

  /** Drops trailing white space. */
  function TrimEnd(s: string): (r: string)
    ensures r <= s && Blank(s[|r|..])
    ensures |r| > 0 ==> !IsWhiteSpace(r[|r| - 1])
    decreases |s|
  {
    if |s| > 0 && IsWhiteSpace(s[|s| - 1]) then TrimEnd(s[..|s| - 1]) else s
  }

  /** `String.prototype.trim`. */
  function Trim(s: string): string {
    TrimEnd(TrimStart(s))
  }

  /** Joining two blank texts gives a blank text. */
  lemma BlankConcat(a: string, b: string)
    requires Blank(a) && Blank(b)
    ensures Blank(a + b)
  {
    forall c | c in a + b ensures IsWhiteSpace(c) {
      assert c in a || c in b;
    }
  }

  /** `s.trim()` is the empty string (the falsy value `calculate` tests for)
      exactly when `s` is made only of white space. */
  lemma TrimEmptyIffBlank(s: string)
    ensures Trim(s) == [] <==> Blank(s)
  {
    var t := TrimStart(s);
    var lead := s[..|s| - |t|];
    assert s == lead + t;
    var r := TrimEnd(t);
    if r == [] {
      assert t[|r|..] == t;
      BlankConcat(lead, t);
    } else {
      assert r[0] == t[0];
      assert !IsWhiteSpace(t[0]);
      assert t[0] == s[|lead|];
    }
  }

  /** `s.slice(0, -1)`: everything but the last character; the empty text
      stays empty. */
  function DropLast(s: string): (r: string)
    ensures |s| == 0 ==> r == []
    ensures |s| > 0 ==> r + [s[|s| - 1]] == s
  {
    if |s| == 0 then [] else s[..|s| - 1]
  }
}
