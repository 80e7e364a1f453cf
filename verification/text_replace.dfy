/** Global literal substitution over character sequences.

    `ReplaceAll` is what `String.prototype.replace` does when given a global
    regular expression whose pattern is a plain literal and a replacement text
    without `$` substitution patterns: it scans left to right, takes the
    leftmost match, never lets two matches overlap, and never rescans the
    replacement text it has emitted.

    `Split` and `Join` are an independent description of the same operation
    (the familiar `s.split(pat).join(rep)` idiom); the lemmas below connect the
    two and show that the pieces between matches are free of the pattern. */
module TextReplace {

  /** `pat` occurs in `s` starting at index `i`. */
  predicate MatchAt(s: string, pat: string, i: int) {
    0 <= i && i + |pat| <= |s| && s[i..i + |pat|] == pat
  }

  /** `pat` occurs nowhere in `s`. */
  predicate MatchFree(s: string, pat: string) {
    forall i | 0 <= i <= |s| :: !MatchAt(s, pat, i)
  }

  /** Replaces every leftmost, non-overlapping occurrence of `pat` in `s` by `rep`. */
  function ReplaceAll(s: string, pat: string, rep: string): (out: string)
    requires |pat| > 0
    ensures forall c :: c in out ==> c in s || c in rep
    decreases |s|
  {
    if |s| == 0 then []
    else if pat <= s then rep + ReplaceAll(s[|pat|..], pat, rep)
    else [s[0]] + ReplaceAll(s[1..], pat, rep)
  }

  /** The pieces of `s` between the leftmost, non-overlapping occurrences of `pat`;
      there is always one more piece than there are occurrences. */
  function Split(s: string, pat: string): (pieces: seq<string>)
    requires |pat| > 0
    ensures |pieces| > 0
    decreases |s|
  {
    if |s| == 0 then [[]]
    else if pat <= s then [[]] + Split(s[|pat|..], pat)
    else
      var rest := Split(s[1..], pat);
      [[s[0]] + rest[0]] + rest[1..]
  }

  /** Concatenates `pieces` with `sep` between neighbours. */
  function Join(pieces: seq<string>, sep: string): string
    requires |pieces| > 0
  {
    if |pieces| == 1 then pieces[0] else pieces[0] + sep + Join(pieces[1..], sep)
  }

  /** Prefixing the first piece with a character prefixes the joined text with it. */
  lemma JoinConsChar(c: char, pieces: seq<string>, sep: string)
    requires |pieces| > 0
    ensures Join([[c] + pieces[0]] + pieces[1..], sep) == [c] + Join(pieces, sep)
  {
    var ps := [[c] + pieces[0]] + pieces[1..];
    if |pieces| > 1 {
      assert ps[1..] == pieces[1..];
    }
  }

  /** A character that cannot start the pattern is copied to the output. */
  lemma ReplaceAllSkip(c: char, s: string, pat: string, rep: string)
    requires |pat| > 0 && pat[0] != c
    ensures ReplaceAll([c] + s, pat, rep) == [c] + ReplaceAll(s, pat, rep)
  {
    assert ([c] + s)[1..] == s;
    assert ([c] + s)[0] != pat[0];
  }

  /** An occurrence at the front is replaced and scanning resumes after it. */
  lemma ReplaceAllHit(s: string, pat: string, rep: string)
    requires |pat| > 0
    ensures ReplaceAll(pat + s, pat, rep) == rep + ReplaceAll(s, pat, rep)
  {
    assert (pat + s)[|pat|..] == s;
  }

  /** A stretch of text without the pattern's first character is copied
      unchanged, and scanning continues after it. */
  lemma {:induction false} ReplaceAllSkipAll(a: string, rest: string, pat: string, rep: string)
    requires |pat| > 0 && pat[0] !in a
    ensures ReplaceAll(a + rest, pat, rep) == a + ReplaceAll(rest, pat, rep)
    decreases |a|
  {
    if |a| > 0 {
      assert a + rest == [a[0]] + (a[1..] + rest);
      ReplaceAllSkip(a[0], a[1..] + rest, pat, rep);
      ReplaceAllSkipAll(a[1..], rest, pat, rep);
      assert a == [a[0]] + a[1..];
    } else {
      assert a + rest == rest;
    }
  }

  /** Replacing every occurrence is splitting at the occurrences and joining with
      the replacement. */
  lemma {:induction false} ReplaceAllIsSplitJoin(s: string, pat: string, rep: string)
    requires |pat| > 0
    ensures ReplaceAll(s, pat, rep) == Join(Split(s, pat), rep)
    decreases |s|
  {
    if |s| == 0 {
    } else if pat <= s {
      ReplaceAllIsSplitJoin(s[|pat|..], pat, rep);
      var pieces := [[]] + Split(s[|pat|..], pat);
      assert pieces[1..] == Split(s[|pat|..], pat);
    } else {
      ReplaceAllIsSplitJoin(s[1..], pat, rep);
      JoinConsChar(s[0], Split(s[1..], pat), rep);
    }
  }

  /** Replacing a pattern by itself changes nothing. */
  lemma {:induction false} ReplaceAllSelf(s: string, pat: string)
    requires |pat| > 0
    ensures ReplaceAll(s, pat, pat) == s
    decreases |s|
  {
    if |s| == 0 {
    } else if pat <= s {
      ReplaceAllSelf(s[|pat|..], pat);
      assert s == pat + s[|pat|..];
    } else {
      ReplaceAllSelf(s[1..], pat);
      assert s == [s[0]] + s[1..];
    }
  }

  /** Splitting at the occurrences of `pat` and joining with `pat` gives back the
      original text. */
  lemma JoinSplit(s: string, pat: string)
    requires |pat| > 0
    ensures Join(Split(s, pat), pat) == s
  {
    ReplaceAllIsSplitJoin(s, pat, pat);
    ReplaceAllSelf(s, pat);
  }

  /** An occurrence in the tail of a text is an occurrence in the text, one
      position further on. */
  lemma MatchInTail(s: string, pat: string, i: int)
    requires |s| > 0 && MatchAt(s[1..], pat, i)
    ensures MatchAt(s, pat, i + 1)
  {
    assert s[1..][i..i + |pat|] == s[i + 1..i + 1 + |pat|];
  }

  /** A text in which the pattern does not occur comes back unchanged. */
  lemma {:induction false} ReplaceAllMatchFree(s: string, pat: string, rep: string)
    requires |pat| > 0 && MatchFree(s, pat)
    ensures ReplaceAll(s, pat, rep) == s
    decreases |s|
  {
    if |s| > 0 {
      assert !MatchAt(s, pat, 0);
      assert !(pat <= s);
      forall i ensures !MatchAt(s[1..], pat, i) {
        if MatchAt(s[1..], pat, i) {
          MatchInTail(s, pat, i);
        }
      }
      ReplaceAllMatchFree(s[1..], pat, rep);
      assert s == [s[0]] + s[1..];
    }
  }

  /** A pattern whose first character is absent from a text does not occur in it. */
  lemma FirstCharAbsent(s: string, pat: string)
    requires |pat| > 0 && pat[0] !in s
    ensures MatchFree(s, pat)
  {
    forall i | 0 <= i <= |s| ensures !MatchAt(s, pat, i) {
      if i + |pat| <= |s| {
        assert s[i] in s;
        assert s[i..i + |pat|][0] == s[i];
      }
    }
  }

  /** Placed at index `i` of `m`, `pat` disagrees with `m` at some offset from
      `j` on that lies inside both, so no continuation of `m[i..]` starts with
      `pat`. */
  predicate ClashesAt(m: string, i: nat, pat: string, j: nat)
    decreases |pat| - j
  {
    i + j < |m| && j < |pat| && (m[i + j] != pat[j] || ClashesAt(m, i, pat, j + 1))
  }

  /** No occurrence of `pat` can start at index `i` of `m` or after it,
      whatever text follows `m`. */
  predicate NoneStartsFrom(m: string, pat: string, i: nat)
    decreases |m| - i
  {
    i >= |m| || (ClashesAt(m, i, pat, 0) && NoneStartsFrom(m, pat, i + 1))
  }

  /** No occurrence of `pat` can start anywhere inside `m`, whatever text
      follows `m`. Sharing a character is not enough for a match: `Math.sin(`
      contains the `t` and the `s` that start `tan(` and `sqrt(`, yet neither
      can start inside it. */
  predicate NoneStartsIn(m: string, pat: string) {
    NoneStartsFrom(m, pat, 0)
  }

  /** The offset at which a clash happens. */
  lemma {:induction false} ClashWitness(m: string, i: nat, pat: string, j: nat) returns (w: nat)
    requires ClashesAt(m, i, pat, j)
    ensures j <= w && i + w < |m| && w < |pat| && m[i + w] != pat[w]
    decreases |pat| - j
  {
    if m[i + j] != pat[j] {
      w := j;
    } else {
      w := ClashWitness(m, i, pat, j + 1);
    }
  }

  /** A suffix of `m` that clashes with the pattern cannot be extended into an
      occurrence of it. */
  lemma ClashNoPrefix(m: string, i: nat, u: string, pat: string)
    requires i <= |m| && ClashesAt(m, i, pat, 0)
    ensures !(pat <= m[i..] + u)
  {
    var w := ClashWitness(m, i, pat, 0);
    assert (m[i..] + u)[w] == m[i + w];
  }

  /** The part of `m` from index `i` on, inside which no occurrence can start,
      is copied unchanged, and scanning continues after it. */
  lemma {:induction false} ReplaceAllSkipInert(m: string, i: nat, b: string, pat: string, rep: string)
    requires |pat| > 0 && i <= |m| && NoneStartsFrom(m, pat, i)
    ensures ReplaceAll(m[i..] + b, pat, rep) == m[i..] + ReplaceAll(b, pat, rep)
    decreases |m| - i
  {
    if i < |m| {
      ClashNoPrefix(m, i, b, pat);
      assert (m[i..] + b)[1..] == m[i + 1..] + b;
      ReplaceAllSkipInert(m, i + 1, b, pat, rep);
      assert m[i..] == [m[i]] + m[i + 1..];
    } else {
      assert m[i..] + b == b;
    }
  }

  /** A text `m` inside which no occurrence can start, between two texts
      without the pattern's first character, comes back unchanged. */
  lemma ReplaceAllInert(a: string, m: string, b: string, pat: string, rep: string)
    requires |pat| > 0 && pat[0] !in a && pat[0] !in b && NoneStartsIn(m, pat)
    ensures ReplaceAll(a + m + b, pat, rep) == a + m + b
  {
    assert a + m + b == a + (m + b);
    ReplaceAllSkipAll(a, m + b, pat, rep);
    ReplaceAllSkipInert(m, 0, b, pat, rep);
    assert m[0..] == m;
    FirstCharAbsent(b, pat);
    ReplaceAllMatchFree(b, pat, rep);
  }

  /** A single occurrence, surrounded by text without the pattern's first
      character, is the only thing replaced. */
  lemma ReplaceAllSingle(a: string, b: string, pat: string, rep: string)
    requires |pat| > 0 && pat[0] !in a && pat[0] !in b
    ensures ReplaceAll(a + pat + b, pat, rep) == a + rep + b
  {
    assert a + pat + b == a + (pat + b);
    ReplaceAllSkipAll(a, pat + b, pat, rep);
    ReplaceAllHit(b, pat, rep);
    FirstCharAbsent(b, pat);
    ReplaceAllMatchFree(b, pat, rep);
  }

  /** Every occurrence of a one-character pattern is replaced: when the
      replacement does not contain that character, neither does the output. */
  lemma {:induction false} ReplaceAllRemovesChar(s: string, c: char, rep: string)
    requires c !in rep
    ensures c !in ReplaceAll(s, [c], rep)
    decreases |s|
  {
    if |s| > 0 {
      ReplaceAllRemovesChar(s[1..], c, rep);
      if [c] <= s {
        assert s[1..] == s[|[c]|..];
      } else {
        assert s[0] != c;
      }
    }
  }

  /** The first piece of a split is a prefix of the text. */
  lemma {:induction false} SplitHeadIsPrefix(s: string, pat: string)
    requires |pat| > 0
    ensures Split(s, pat)[0] <= s
    decreases |s|
  {
    if |s| > 0 && !(pat <= s) {
      SplitHeadIsPrefix(s[1..], pat);
    }
  }

  /** Extending a pattern-free text by one character at the front keeps it
      pattern free, as long as the pattern does not start at that character. */
  lemma ConsMatchFree(c: char, piece: string, s: string, pat: string)
    requires |pat| > 0 && MatchFree(piece, pat)
    requires [c] + piece <= s && !(pat <= s)
    ensures MatchFree([c] + piece, pat)
  {
    var head := [c] + piece;
    forall i | 0 <= i <= |head| ensures !MatchAt(head, pat, i) {
      if i == 0 {
        if |pat| <= |head| {
          assert head[..|pat|] == s[..|pat|];
        }
      } else if i + |pat| <= |head| {
        assert head[i..i + |pat|] == piece[i - 1..i - 1 + |pat|];
        assert !MatchAt(piece, pat, i - 1);
      }
    }
  }

  /** The pieces between occurrences contain no occurrence of the pattern. */
  lemma {:induction false} SplitPiecesMatchFree(s: string, pat: string)
    requires |pat| > 0
    ensures forall k :: 0 <= k < |Split(s, pat)| ==> MatchFree(Split(s, pat)[k], pat)
    decreases |s|
  {
    var pieces := Split(s, pat);
    if |s| == 0 {
      assert MatchFree(pieces[0], pat);
    } else if pat <= s {
      SplitPiecesMatchFree(s[|pat|..], pat);
      assert MatchFree(pieces[0], pat);
      assert forall k :: 1 <= k < |pieces| ==> pieces[k] == Split(s[|pat|..], pat)[k - 1];
    } else {
      var rest := Split(s[1..], pat);
      SplitPiecesMatchFree(s[1..], pat);
      SplitHeadIsPrefix(s[1..], pat);
      assert [s[0]] + rest[0] <= s;
      ConsMatchFree(s[0], rest[0], s, pat);
      assert forall k :: 1 <= k < |pieces| ==> pieces[k] == rest[k];
    }
  }
}
