/**
 The part of Go's `strings` package the extractor uses: `Split` on a
 one-character separator, `TrimSpace` and `TrimSuffix`. Strings are
 sequences of Unicode code points; Go's byte-level handling of invalid
 UTF-8 is not modelled.
 */
module GoStrings {

  import opened Seqs

  /** Go's `unicode.IsSpace`: the code points with the Unicode White_Space property. */
  predicate IsSpace(c: char) {
    || ('\t' <= c <= '\r')
    || c == ' '
    || c == '\U{0085}'
    || c == '\U{00A0}'
    || c == '\U{1680}'
    || ('\U{2000}' <= c <= '\U{200A}')
    || c == '\U{2028}'
    || c == '\U{2029}'
    || c == '\U{202F}'
    || c == '\U{205F}'
    || c == '\U{3000}'
  }

  /**
   `strings.Split(s, sep)` for a one-character separator: the pieces of `s`
   between occurrences of `sep`.
   */
  function Split(s: string, sep: char): (parts: seq<string>)
    ensures |parts| >= 1
  {
    if |s| == 0 then [""]
    else
      var rest := Split(s[1..], sep);
      if s[0] == sep then [""] + rest
      else [[s[0]] + rest[0]] + rest[1..]
  }

  /** There is one more piece than there are separators, and no piece contains the separator. */
  lemma {:induction false} SplitPieces(s: string, sep: char)
    ensures |Split(s, sep)| == multiset(s)[sep] + 1
    ensures forall i :: 0 <= i < |Split(s, sep)| ==> sep !in Split(s, sep)[i]
  {
    if |s| > 0 {
      assert s == [s[0]] + s[1..];
      SplitPieces(s[1..], sep);
    }
  }

  /** `strings.Join(parts, sep)`: the inverse of `Split`. */
  function Join(parts: seq<string>, sep: char): (s: string)
    requires |parts| >= 1
  {
    if |parts| == 1 then parts[0] else parts[0] + [sep] + Join(parts[1..], sep)
  }

  /** Splitting and re-joining gives back the original text. */
  lemma {:induction false} JoinSplit(s: string, sep: char)
    ensures Join(Split(s, sep), sep) == s
  {
    if |s| > 0 {
      var rest := Split(s[1..], sep);
      JoinSplit(s[1..], sep);
      if s[0] == sep {
        assert Split(s, sep)[1..] == rest;
      } else {
        assert Split(s, sep)[1..] == rest[1..];
        if |rest| == 1 {
        } else {
          assert rest == [rest[0]] + rest[1..];
        }
      }
    }
  }

  /** Splitting a piece without separators off the front. */
  lemma {:induction false} SplitCons(p: string, sep: char, tail: string)
    requires sep !in p
    ensures Split(p + [sep] + tail, sep) == [p] + Split(tail, sep)
  {
    if |p| > 0 {
      assert (p + [sep] + tail)[1..] == p[1..] + [sep] + tail;
      SplitCons(p[1..], sep, tail);
      assert [p[0]] + p[1..] == p;
    } else {
      assert p + [sep] + tail == [sep] + tail;
    }
  }

  /** Joining pieces that hold no separator and splitting again gives back the pieces. */
  lemma {:induction false} SplitJoin(parts: seq<string>, sep: char)
    requires |parts| >= 1
    requires forall i :: 0 <= i < |parts| ==> sep !in parts[i]
    ensures Split(Join(parts, sep), sep) == parts
  {
    if |parts| == 1 {
      SplitNoSep(parts[0], sep);
    } else {
      SplitJoin(parts[1..], sep);
      SplitCons(parts[0], sep, Join(parts[1..], sep));
      assert [parts[0]] + parts[1..] == parts;
    }
  }

  /** A text without the separator splits into itself alone. */
  lemma {:induction false} SplitNoSep(s: string, sep: char)
    requires sep !in s
    ensures Split(s, sep) == [s]
  {
    if |s| > 0 {
      SplitNoSep(s[1..], sep);
      assert [s[0]] + s[1..] == s;
    }
  }

  /**
   A text with exactly one separator splits into two pieces: the text
   before it and the text after it.
   */
  lemma SplitOneSep(s: string, sep: char)
    requires multiset(s)[sep] == 1
    ensures sep in s
    ensures Split(s, sep) == [s[..IndexOf(s, sep)], s[IndexOf(s, sep) + 1..]]
  {
    assert sep in multiset(s);
    var i := IndexOf(s, sep);
    var a, b := s[..i], s[i + 1..];
    assert s == a + [sep] + b;
    assert multiset(s) == multiset(a) + multiset{sep} + multiset(b);
    assert sep !in b;
    assert Join([a, b], sep) == s;
    SplitJoin([a, b], sep);
  }

  /** `strings.TrimLeftFunc(s, unicode.IsSpace)`: drops leading white space. */
  function TrimLeft(s: string): (r: string)
    ensures |r| <= |s|
  {
    if |s| > 0 && IsSpace(s[0]) then TrimLeft(s[1..]) else s
  }

  /** Left trimming stops at a text that starts with a character other than white space. */
  lemma {:induction false} TrimLeftAppend(x: string, y: string)
    requires |y| > 0 && !IsSpace(y[0])
    ensures TrimLeft(x + y) == TrimLeft(x) + y
  {
    if |x| > 0 {
      assert (x + y)[0] == x[0];
      if IsSpace(x[0]) {
        assert (x + y)[1..] == x[1..] + y;
        TrimLeftAppend(x[1..], y);
      }
    } else {
      assert x + y == y;
    }
  }

  /** `strings.TrimRightFunc(s, unicode.IsSpace)`: drops trailing white space. */
  function TrimRight(s: string): (r: string)
    ensures |r| <= |s|
  {
    if |s| > 0 && IsSpace(s[|s| - 1]) then TrimRight(s[..|s| - 1]) else s
  }

  /** `TrimLeft` keeps a suffix, drops only white space, and stops at the first other character. */
  lemma {:induction false} TrimLeftDrops(s: string)
    ensures TrimLeft(s) == s[|s| - |TrimLeft(s)|..]
    ensures forall k :: 0 <= k < |s| - |TrimLeft(s)| ==> IsSpace(s[k])
    ensures |TrimLeft(s)| > 0 ==> !IsSpace(TrimLeft(s)[0])
  {
    if |s| > 0 && IsSpace(s[0]) {
      TrimLeftDrops(s[1..]);
    }
  }

  /** `TrimRight` keeps a prefix, drops only white space, and stops at the last other character. */
  lemma {:induction false} TrimRightDrops(s: string)
    ensures TrimRight(s) == s[..|TrimRight(s)|]
    ensures forall k :: |TrimRight(s)| <= k < |s| ==> IsSpace(s[k])
    ensures |TrimRight(s)| > 0 ==> !IsSpace(TrimRight(s)[|TrimRight(s)| - 1])
  {
    if |s| > 0 && IsSpace(s[|s| - 1]) {
      TrimRightDrops(s[..|s| - 1]);
    }
  }

  /** `strings.TrimSpace`: drops leading, then trailing white space. */
  function TrimSpace(s: string): (r: string)
    ensures |r| <= |s|
  {
    TrimRight(TrimLeft(s))
  }

  /** `r` is the slice of `s` starting at `i`, with only white space around it. */
  predicate TrimmedAt(s: string, r: string, i: int) {
    && 0 <= i <= |s| - |r|
    && r == s[i..i + |r|]
    && (forall k :: 0 <= k < i ==> IsSpace(s[k]))
    && (forall k :: i + |r| <= k < |s| ==> IsSpace(s[k]))
  }

  /**
   `TrimSpace` leaves the slice of `s` that remains after removing all
   leading and trailing white space; it neither starts nor ends with
   white space.
   */
  lemma TrimSpaceTrims(s: string)
    ensures exists i :: TrimmedAt(s, TrimSpace(s), i)
    ensures var r := TrimSpace(s); |r| > 0 ==> !IsSpace(r[0]) && !IsSpace(r[|r| - 1])
  {
    var l := TrimLeft(s);
    var r := TrimRight(l);
    TrimLeftDrops(s);
    TrimRightDrops(l);
    var i := |s| - |l|;
    assert r == s[i..][..|r|] == s[i..i + |r|];
    assert forall k :: i + |r| <= k < |s| ==> s[k] == l[k - i];
    assert TrimmedAt(s, r, i);
    assert TrimSpace(s) == r;
  }

  /** A text that neither starts nor ends with white space is left as it is. */
  lemma TrimSpaceKeeps(s: string)
    requires |s| > 0 ==> !IsSpace(s[0]) && !IsSpace(s[|s| - 1])
    ensures TrimSpace(s) == s
  {
  }

  /** Trimming twice is the same as trimming once. */
  lemma TrimSpaceIdempotent(s: string)
    ensures TrimSpace(TrimSpace(s)) == TrimSpace(s)
  {
    TrimSpaceTrims(s);
    TrimSpaceKeeps(TrimSpace(s));
  }

  /** A slice holds no character its sequence does not hold. */
  lemma NotInSlice(s: string, i: nat, j: nat, c: char)
    requires i <= j <= |s| && c !in s
    ensures c !in s[i..j]
  {
    forall k | 0 <= k < j - i
      ensures s[i..j][k] != c
    {
      assert s[i..j][k] == s[i + k];
    }
  }

  /** Trimming white space and a suffix only removes characters, so it cannot introduce one. */
  lemma TrimsKeepOut(s: string, suffix: string, c: char)
    requires c !in s
    ensures c !in TrimSuffix(TrimSpace(s), suffix)
  {
    var l := TrimLeft(s);
    TrimLeftDrops(s);
    NotInSlice(s, |s| - |l|, |s|, c);
    var r := TrimRight(l);
    TrimRightDrops(l);
    NotInSlice(l, 0, |r|, c);
    if HasSuffix(r, suffix) {
      NotInSlice(r, 0, |r| - |suffix|, c);
    }
  }

  predicate HasSuffix(s: string, suffix: string) {
    |suffix| <= |s| && s[|s| - |suffix|..] == suffix
  }

  /** `strings.TrimSuffix`: removes one trailing `suffix` when present. */
  function TrimSuffix(s: string, suffix: string): (r: string)
    ensures HasSuffix(s, suffix) ==> r + suffix == s
    ensures !HasSuffix(s, suffix) ==> r == s
  {
    if HasSuffix(s, suffix) then s[..|s| - |suffix|] else s
  }

  /** Appending a suffix and trimming it again gives back the original text. */
  lemma TrimSuffixAppend(s: string, suffix: string)
    ensures TrimSuffix(s + suffix, suffix) == s
  {
    assert HasSuffix(s + suffix, suffix);
  }
}
