/**
 Deriving the clean placeholders and the placeholder map from the raw
 placeholders (`clean` and `populatePlaceHoldersMap` in template.go).
 */
module Placeholders {

  import opened Wrappers
  import opened Seqs
  import opened GoStrings

  /** The closing delimiter removed from the field name. */
  const Closing: string := "}}"

  /** The value stored under every key of the placeholder map (Go's `""` held in an `interface{}`). */
  const Unset: string := ""

  /**
   The local copy `cRaw` built by the first loop of `clean`: the raw
   placeholders with repeats dropped, each kept at its first occurrence.
   */
  function Dedup(s: seq<string>): (r: seq<string>)
    ensures |r| <= |s|
  {
    if |s| == 0 then []
    else
      var p := Dedup(s[..|s| - 1]);
      var x := s[|s| - 1];
      if x in p then p else p + [x]
  }

  /** `r` lists elements of `s` in the order of their first occurrence in `s`. */
  predicate InFirstOccurrenceOrder(s: seq<string>, r: seq<string>) {
    && (forall x :: x in r ==> x in s)
    && (forall i, j :: 0 <= i < j < |r| ==> IndexOf(s, r[i]) < IndexOf(s, r[j]))
  }

  /**
   `cRaw` holds no text twice, holds every raw placeholder, and lists them
   in the order of their first occurrence among the raw placeholders.
   */
  lemma {:induction false} DedupIsFirstOccurrences(s: seq<string>)
    ensures NoDuplicates(Dedup(s))
    ensures forall x :: x in Dedup(s) <==> x in s
    ensures InFirstOccurrenceOrder(s, Dedup(s))
  {
    if |s| > 0 {
      var s', x := s[..|s| - 1], s[|s| - 1];
      var p := Dedup(s');
      DedupIsFirstOccurrences(s');
      assert s == s' + [x];
      DedupStep(s, p);
      if x !in p {
        var r := p + [x];
        forall i, j | 0 <= i < j < |r|
          ensures IndexOf(s, r[i]) < IndexOf(s, r[j])
        {
          if j < |p| {
            assert r[i] == p[i] && r[j] == p[j];
          } else {
            assert r[i] == p[i];
          }
        }
      }
    }
  }

  /** The first occurrences in `s` of the elements of its prefix are those in the prefix. */
  lemma DedupStep(s: seq<string>, p: seq<string>)
    requires |s| > 0
    requires forall x :: x in p <==> x in s[..|s| - 1]
    ensures forall x :: x in p ==> IndexOf(s, x) == IndexOf(s[..|s| - 1], x) < |s| - 1
    ensures s[|s| - 1] !in p ==> IndexOf(s, s[|s| - 1]) == |s| - 1
  {
    forall x | x in p
      ensures IndexOf(s, x) == IndexOf(s[..|s| - 1], x)
    {
      IndexOfPrefix(s, |s| - 1, x);
    }
  }

  /** Raw placeholders that are already pairwise distinct are copied unchanged. */
  lemma DedupDistinct(s: seq<string>)
    requires NoDuplicates(s)
    ensures Dedup(s) == s
  {
    forall i | 0 <= i < |s|
      ensures IndexOf(s, s[i]) == i
    {
      var j := IndexOf(s, s[i]);
      assert s[j] == s[i];
    }
    DedupUnique(s, s);
  }

  /**
   The three properties of `Dedup` determine its result: any repeat-free
   sequence with the same elements as `s`, ordered by first occurrence in
   `s`, is `Dedup(s)`.
   */
  lemma {:induction false} DedupUnique(s: seq<string>, r: seq<string>)
    requires NoDuplicates(r)
    requires forall x :: x in r <==> x in s
    requires InFirstOccurrenceOrder(s, r)
    ensures r == Dedup(s)
  {
    DedupIsFirstOccurrences(s);
    SameOrderedElements(s, r, Dedup(s));
  }

  /** Two repeat-free sequences with the same elements, both in first-occurrence order, are equal. */
  lemma {:induction false} SameOrderedElements(s: seq<string>, a: seq<string>, b: seq<string>)
    requires NoDuplicates(a) && NoDuplicates(b)
    requires forall x :: x in a <==> x in b
    requires InFirstOccurrenceOrder(s, a) && InFirstOccurrenceOrder(s, b)
    ensures a == b
    decreases |a|
  {
    BothEmptyOrNot(a, b);
    if |a| > 0 {
      SameHead(s, a, b);
      SameTailElements(a, b);
      OrderedTail(s, a);
      OrderedTail(s, b);
      SameOrderedElements(s, a[1..], b[1..]);
      assert a == [a[0]] + a[1..];
      assert b == [b[0]] + b[1..];
    }
  }

  lemma BothEmptyOrNot(a: seq<string>, b: seq<string>)
    requires forall x :: x in a <==> x in b
    ensures |a| == 0 <==> |b| == 0
  {
    if |a| > 0 {
      assert a[0] in b;
    }
    if |b| > 0 {
      assert b[0] in a;
    }
  }

  lemma SameHead(s: seq<string>, a: seq<string>, b: seq<string>)
    requires |a| > 0 && |b| > 0
    requires forall x :: x in a <==> x in b
    requires InFirstOccurrenceOrder(s, a) && InFirstOccurrenceOrder(s, b)
    ensures a[0] == b[0]
  {
    assert a[0] in b && b[0] in a;
  }

  lemma SameTailElements(a: seq<string>, b: seq<string>)
    requires |a| > 0 && |b| > 0 && a[0] == b[0]
    requires NoDuplicates(a) && NoDuplicates(b)
    requires forall x :: x in a <==> x in b
    ensures forall x :: x in a[1..] <==> x in b[1..]
  {
    forall x
      ensures x in a[1..] ==> x in b[1..]
      ensures x in b[1..] ==> x in a[1..]
    {
      if x in a[1..] {
        var i :| 1 <= i < |a| && a[i] == x;
        assert x in a && x in b;
        var j :| 0 <= j < |b| && b[j] == x;
        assert j != 0;
      }
      if x in b[1..] {
        var i :| 1 <= i < |b| && b[i] == x;
        assert x in b && x in a;
        var j :| 0 <= j < |a| && a[j] == x;
        assert j != 0;
      }
    }
  }

  lemma OrderedTail(s: seq<string>, a: seq<string>)
    requires |a| > 0 && NoDuplicates(a) && InFirstOccurrenceOrder(s, a)
    ensures NoDuplicates(a[1..]) && InFirstOccurrenceOrder(s, a[1..])
  {
    forall i, j | 0 <= i < j < |a| - 1
      ensures IndexOf(s, a[1..][i]) < IndexOf(s, a[1..][j])
    {
      assert a[1..][i] == a[i + 1] && a[1..][j] == a[j + 1];
    }
  }

  /** Appending texts already present does not change the de-duplicated copy. */
  lemma {:induction false} DedupAbsorb(a: seq<string>, b: seq<string>)
    requires forall x :: x in b ==> x in a
    ensures Dedup(a + b) == Dedup(a)
    decreases |b|
  {
    if |b| > 0 {
      var b' := b[..|b| - 1];
      assert (a + b)[..|a + b| - 1] == a + b';
      DedupAbsorb(a, b');
      assert b[|b| - 1] in b;
      DedupIsFirstOccurrences(a + b');
    } else {
      assert a + b == a;
    }
  }

  /**
   The clean placeholder derived from one de-duplicated raw placeholder,
   if any: the text is split on `.`, and only a text that splits into
   exactly two parts, that is one holding exactly one `.`, contributes.
   Its part after the dot has white space trimmed first and then one
   trailing `}}` removed.
   */
  function CleanEntry(s: string): (r: Option<string>) {
    var sn := Split(s, '.');
    if |sn| == 2 then Some(TrimSuffix(TrimSpace(sn[1]), Closing)) else None
  }

  /**
   A raw placeholder yields a clean one exactly when it holds exactly one
   `.`; the clean placeholder is the text after that dot, with white space
   trimmed and then one trailing `}}` removed, and holds no dot itself.
   */
  lemma CleanEntryMeaning(s: string)
    ensures CleanEntry(s).Some? <==> multiset(s)['.'] == 1
    ensures CleanEntry(s).Some? ==>
              && '.' in s
              && CleanEntry(s).value == TrimSuffix(TrimSpace(s[IndexOf(s, '.') + 1..]), Closing)
              && '.' !in CleanEntry(s).value
  {
    SplitPieces(s, '.');
    if |Split(s, '.')| == 2 {
      CleanEntryValue(s);
    }
  }

  lemma CleanEntryValue(s: string)
    requires |Split(s, '.')| == 2
    ensures '.' in s
    ensures Split(s, '.')[1] == s[IndexOf(s, '.') + 1..]
    ensures '.' !in TrimSuffix(TrimSpace(Split(s, '.')[1]), Closing)
  {
    SplitPieces(s, '.');
    SplitOneSep(s, '.');
    TrimsKeepOut(Split(s, '.')[1], Closing, '.');
  }

  /**
   An action whose text is some dot-free prefix, a `.`, a dot-free field
   name and the closing `}}` yields that field name: `{{.Name}}` and
   `{{$Name := .Name}}` both yield `Name`.
   */
  lemma CleanEntryField(prefix: string, name: string)
    requires '.' !in prefix && '.' !in name
    requires |name| > 0 ==> !IsSpace(name[0])
    ensures CleanEntry(prefix + ['.'] + name + Closing) == Some(name)
  {
    var tail := name + Closing;
    assert prefix + ['.'] + name + Closing == prefix + ['.'] + tail;
    assert Join([prefix, tail], '.') == prefix + ['.'] + tail;
    SplitJoin([prefix, tail], '.');
    TrimSpaceKeeps(tail);
    TrimSuffixAppend(name, Closing);
  }

  /**
   For a text ending in `}}` with no white space right before it, which is
   how `String()` renders every action, trimming white space before or
   after removing `}}` gives the same result; the order of the two trims
   shows only on texts with white space before `}}`.
   */
  lemma TrimOrderAgrees(x: string)
    requires |x| > 0 ==> !IsSpace(x[|x| - 1])
    ensures TrimSuffix(TrimSpace(x + Closing), Closing) == TrimSpace(TrimSuffix(x + Closing, Closing))
  {
    var l := TrimLeft(x);
    TrimLeftAppend(x, Closing);
    TrimLeftDrops(x);
    assert TrimRight(l + Closing) == l + Closing;
    TrimSuffixAppend(l, Closing);
    TrimSuffixAppend(x, Closing);
    if |l| > 0 {
      assert l[|l| - 1] == x[|x| - 1];
    }
  }

  /** An action without any `.`, such as `{{$Name}}`, yields nothing. */
  lemma CleanEntryNoDot(s: string)
    requires '.' !in s
    ensures CleanEntry(s) == None
  {
    SplitNoSep(s, '.');
  }

  /**
   The clean placeholders the second loop of `clean` appends for the
   de-duplicated copy `c`, in its order, repeats not removed.
   */
  function CleanAll(c: seq<string>): (r: seq<string>)
    ensures |r| <= |c|
  {
    if |c| == 0 then [] else CleanAll(c[..|c| - 1]) + Contribution(c[|c| - 1])
  }

  /** What one entry of `cRaw` adds to the clean placeholders: its value, or nothing. */
  function Contribution(s: string): (r: seq<string>)
    ensures |r| <= 1
  {
    match CleanEntry(s)
    case Some(v) => [v]
    case None => []
  }

  lemma CleanAllPrefix(c: seq<string>, j: nat)
    requires j < |c|
    ensures CleanAll(c[..j + 1]) == CleanAll(c[..j]) + Contribution(c[j])
  {
    assert c[..j + 1][..j] == c[..j];
  }

  /**
   The positions in `c` of the entries that contribute a clean
   placeholder, in increasing order (by `CleanEntryMeaning`, the entries
   holding exactly one `.`).
   */
  function Sources(c: seq<string>): (r: seq<nat>)
    ensures forall k :: 0 <= k < |r| ==> r[k] < |c|
    ensures forall k, l :: 0 <= k < l < |r| ==> r[k] < r[l]
  {
    if |c| == 0 then []
    else
      var p := Sources(c[..|c| - 1]);
      if CleanEntry(c[|c| - 1]).Some? then p + [|c| - 1] else p
  }

  /** The contributing positions are exactly those whose entry yields a clean placeholder. */
  lemma {:induction false} SourcesContribute(c: seq<string>, i: nat)
    requires i < |c|
    ensures i in Sources(c) <==> CleanEntry(c[i]).Some?
  {
    var c' := c[..|c| - 1];
    if i < |c'| {
      SourcesContribute(c', i);
      assert c'[i] == c[i];
    }
  }

  /**
   The clean placeholders are exactly the values of the contributing
   entries, taken in the order of those entries: each clean placeholder
   comes from an entry with exactly one `.`, and an entry with no dot or
   with two or more contributes nothing.
   */
  lemma {:induction false} CleanAllFromSources(c: seq<string>)
    ensures |CleanAll(c)| == |Sources(c)|
    ensures forall k :: 0 <= k < |CleanAll(c)| ==>
              CleanEntry(c[Sources(c)[k]]) == Some(CleanAll(c)[k])
  {
    if |c| > 0 {
      CleanAllFromSources(c[..|c| - 1]);
      assert MatchesSources(c[..|c| - 1]);
      forall k | 0 <= k < |CleanAll(c)|
        ensures CleanEntry(c[Sources(c)[k]]) == Some(CleanAll(c)[k])
      {
        SourcesStep(c, k);
      }
    }
  }

  /** The clean placeholders of `c` are the values of its entries at `Sources(c)`. */
  ghost predicate MatchesSources(c: seq<string>) {
    && |CleanAll(c)| == |Sources(c)|
    && forall k :: 0 <= k < |CleanAll(c)| ==> CleanEntry(c[Sources(c)[k]]) == Some(CleanAll(c)[k])
  }

  lemma SourcesStep(c: seq<string>, k: nat)
    requires |c| > 0
    requires MatchesSources(c[..|c| - 1])
    requires k < |CleanAll(c)|
    ensures |CleanAll(c)| == |Sources(c)|
    ensures CleanEntry(c[Sources(c)[k]]) == Some(CleanAll(c)[k])
  {
    var c' := c[..|c| - 1];
    if k < |CleanAll(c')| {
      assert Sources(c)[k] == Sources(c')[k];
      assert CleanAll(c)[k] == CleanAll(c')[k];
      assert c[Sources(c)[k]] == c'[Sources(c')[k]];
    }
  }

  /** A text is a clean placeholder exactly when some entry of `c` yields it. */
  lemma CleanAllMembership(c: seq<string>, x: string)
    ensures x in CleanAll(c) <==> exists i :: 0 <= i < |c| && CleanEntry(c[i]) == Some(x)
  {
    if x in CleanAll(c) {
      CleanAllFrom(c, x);
    }
    if exists i :: 0 <= i < |c| && CleanEntry(c[i]) == Some(x) {
      var i :| 0 <= i < |c| && CleanEntry(c[i]) == Some(x);
      CleanAllTo(c, i, x);
    }
  }

  lemma {:induction false} CleanAllFrom(c: seq<string>, x: string)
    requires x in CleanAll(c)
    ensures exists i :: 0 <= i < |c| && CleanEntry(c[i]) == Some(x)
  {
    var c' := c[..|c| - 1];
    if x in CleanAll(c') {
      CleanAllFrom(c', x);
      var i :| 0 <= i < |c'| && CleanEntry(c'[i]) == Some(x);
      assert c[i] == c'[i];
    } else {
      assert x in Contribution(c[|c| - 1]);
    }
  }

  lemma {:induction false} CleanAllTo(c: seq<string>, i: nat, x: string)
    requires i < |c| && CleanEntry(c[i]) == Some(x)
    ensures x in CleanAll(c)
  {
    var c' := c[..|c| - 1];
    if i < |c'| {
      assert c'[i] == c[i];
      CleanAllTo(c', i, x);
    } else {
      assert Contribution(c[i]) == [x];
    }
  }

  /**
   `populatePlaceHoldersMap`: sets the entry of every clean placeholder
   to the unset value; a repeated placeholder lands on the same key.
   */
  function PopulateMap(m: map<string, string>, clean: seq<string>): (m': map<string, string>)
    ensures m'.Keys == m.Keys + set x | x in clean
    ensures forall k :: k in clean ==> m'[k] == Unset
    ensures forall k :: k in m && k !in clean ==> m'[k] == m[k]
  {
    if |clean| == 0 then m
    else PopulateMap(m, clean[..|clean| - 1])[clean[|clean| - 1] := Unset]
  }

  /** Populating a map that already holds every placeholder with the unset value changes nothing. */
  lemma {:induction false} PopulateMapAgain(m: map<string, string>, clean: seq<string>)
    requires forall k :: k in clean ==> k in m && m[k] == Unset
    ensures PopulateMap(m, clean) == m
  {
    if |clean| > 0 {
      PopulateMapAgain(m, clean[..|clean| - 1]);
      assert clean[|clean| - 1] in clean;
    }
  }

  /**
   `clean`: copies the raw placeholders without repeats into `cRaw`, then
   appends the clean placeholder of every entry of `cRaw` that splits on
   `.` into two parts.
   */
  method Clean(raw: seq<string>, clean: seq<string>) returns (clean': seq<string>)
    ensures clean' == clean + CleanAll(Dedup(raw))
  {
    var cRaw := UniqueCopy(raw);
    clean' := AppendCleaned(cRaw, clean);
  }

  /**
   The second loop of `clean`: for each entry of `cRaw` in order, appends
   the clean placeholder it yields, if any.
   */
  method AppendCleaned(cRaw: seq<string>, clean: seq<string>) returns (clean': seq<string>)
    ensures clean' == clean + CleanAll(cRaw)
  {
    clean' := clean;
    var j := 0;
    while j < |cRaw|
      invariant 0 <= j <= |cRaw|
      invariant clean' == clean + CleanAll(cRaw[..j])
    {
      var s := cRaw[j];
      var e := CleanEntry(s);
      CleanAllStep(cRaw, j, clean, clean');
      if e.Some? {
        clean' := clean' + [e.value];
      }
      j := j + 1;
    }
    assert cRaw[..j] == cRaw;
  }

  lemma CleanAllStep(c: seq<string>, j: nat, clean: seq<string>, acc: seq<string>)
    requires j < |c|
    requires acc == clean + CleanAll(c[..j])
    ensures acc + Contribution(c[j]) == clean + CleanAll(c[..j + 1])
  {
    CleanAllPrefix(c, j);
    assert (clean + CleanAll(c[..j])) + Contribution(c[j])
        == clean + (CleanAll(c[..j]) + Contribution(c[j]));
  }

  /**
   The first loop of `clean`: keeps each raw placeholder whose text has
   not been seen yet, remembering the seen texts in a set as the Go code
   does in a map.
   */
  method UniqueCopy(raw: seq<string>) returns (cRaw: seq<string>)
    ensures cRaw == Dedup(raw)
  {
    var unique: set<string> := {};
    cRaw := [];
    var i := 0;
    while i < |raw|
      invariant 0 <= i <= |raw|
      invariant cRaw == Dedup(raw[..i])
      invariant forall x :: x in unique <==> x in cRaw
    {
      var s := raw[i];
      if s !in unique {
        unique := unique + {s};
        cRaw := cRaw + [s];
      }
      ghost var next := raw[..i + 1];
      assert next[..i] == raw[..i] && next[i] == s;
      i := i + 1;
    }
    assert raw[..i] == raw;
  }

  /** `populatePlaceHoldersMap`, as the Go loop over the clean placeholders. */
  method PopulatePlaceHoldersMap(m: map<string, string>, clean: seq<string>) returns (m': map<string, string>)
    ensures m' == PopulateMap(m, clean)
  {
    m' := m;
    var i := 0;
    while i < |clean|
      invariant 0 <= i <= |clean|
      invariant m' == PopulateMap(m, clean[..i])
    {
      PopulateMapStep(m, clean, i);
      m' := m'[clean[i] := Unset];
      i := i + 1;
    }
    assert clean[..i] == clean;
  }

  lemma PopulateMapStep(m: map<string, string>, clean: seq<string>, i: nat)
    requires i < |clean|
    ensures PopulateMap(m, clean[..i + 1]) == PopulateMap(m, clean[..i])[clean[i] := Unset]
  {
    assert clean[..i + 1][..i] == clean[..i];
  }
}
