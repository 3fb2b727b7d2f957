/**
 The four cases of template_test.go worked through the model, stated for
 any field and variable names rather than only `Name` and `Number`, plus
 two edge cases of the walk and of the clean step. Each template is given
 as the tree Go's parser builds for it: text runs are `Other([])`, each
 `{{...}}` is an `Action` carrying its rendered text.
 */
module Scenarios {

  import opened Wrappers
  import opened Seqs
  import opened GoStrings
  import opened Parse
  import opened Placeholders
  import opened TemplateExtract

  /** Runs a new extractor over `t` once. */
  function ExtractOnce(t: Template): Extractor {
    ExtractPlaceHolders(NewTemplateDataExtractor(Some(t)).value)
  }

  /** A name as written after a dot or a `$`: no dot, not starting with white space. */
  predicate IsName(n: string) {
    '.' !in n && |n| > 0 && !IsSpace(n[0])
  }

  /** `{{.name}}` */
  function FieldAction(name: string): string {
    "{{." + name + "}}"
  }

  /** `{{$v := .name}}` */
  function AssignAction(v: string, name: string): string {
    "{{$" + v + " := ." + name + "}}"
  }

  /** `{{$v}}` */
  function VarAction(v: string): string {
    "{{$" + v + "}}"
  }

  lemma FieldActionClean(name: string)
    requires IsName(name)
    ensures CleanEntry(FieldAction(name)) == Some(name)
  {
    assert FieldAction(name) == "{{" + ['.'] + name + Closing;
    CleanEntryField("{{", name);
  }

  lemma AssignActionClean(v: string, name: string)
    requires IsName(v) && IsName(name)
    ensures CleanEntry(AssignAction(v, name)) == Some(name)
  {
    assert AssignAction(v, name) == ("{{$" + v + " := ") + ['.'] + name + Closing;
    CleanEntryField("{{$" + v + " := ", name);
  }

  lemma VarActionClean(v: string)
    requires IsName(v)
    ensures CleanEntry(VarAction(v)) == None
  {
    CleanEntryNoDot(VarAction(v));
  }

  lemma FieldActionInjective(a: string, b: string)
    requires FieldAction(a) == FieldAction(b)
    ensures a == b
  {
    assert a == FieldAction(a)[3..|FieldAction(a)| - 2];
    assert b == FieldAction(b)[3..|FieldAction(b)| - 2];
  }

  /** Two different field names give two different raw placeholders. */
  lemma FieldsDistinct(a: string, b: string)
    requires a != b
    ensures NoDuplicates([FieldAction(a), FieldAction(b)])
  {
    if FieldAction(a) == FieldAction(b) {
      FieldActionInjective(a, b);
    }
  }

  /** The map a run leaves for the clean placeholders `[a, b]`. */
  lemma TwoKeyMap(a: string, b: string)
    ensures PopulateMap(map[], [a, b]) == map[a := Unset, b := Unset]
  {
  }

  /** The tree of `Hello, {{.a}}! Your number is {{.b}}.` */
  function TwoFieldsTemplate(a: string, b: string): Template {
    Template([Other([]), Action(FieldAction(a)), Other([]), Action(FieldAction(b)), Other([])])
  }

  /** The tree of `Hello, {{.a}}! Your number is {{.b}}. {{.a}} is again. {{.b}}` */
  function RepeatedFieldsTemplate(a: string, b: string): Template {
    Template([Other([]), Action(FieldAction(a)), Other([]), Action(FieldAction(b)),
              Other([]), Action(FieldAction(a)), Other([]), Action(FieldAction(b))])
  }

  lemma TwoFieldsWalk(a: string, b: string)
    ensures WalkTemplate(TwoFieldsTemplate(a, b)) == [FieldAction(a), FieldAction(b)]
  {
    var r := TwoFieldsTemplate(a, b).root;
    WalkAllFrom(r, 4);
    WalkAllFrom(r, 3);
    WalkAllFrom(r, 2);
    WalkAllFrom(r, 1);
    WalkAllFrom(r, 0);
  }

  lemma RepeatedFieldsWalk(a: string, b: string)
    ensures var once := [FieldAction(a), FieldAction(b)];
            WalkTemplate(RepeatedFieldsTemplate(a, b)) == once + once
  {
    var r := RepeatedFieldsTemplate(a, b).root;
    var once := [FieldAction(a), FieldAction(b)];
    var half := [Other([]), Action(FieldAction(a)), Other([]), Action(FieldAction(b))];
    assert r == half + half;
    WalkAllFrom(half, 3);
    WalkAllFrom(half, 2);
    WalkAllFrom(half, 1);
    WalkAllFrom(half, 0);
    WalkAllAppend(half, half);
  }

  /** The clean placeholders of two distinct field actions are their two names. */
  lemma TwoFieldsClean(a: string, b: string)
    requires IsName(a) && IsName(b) && a != b
    ensures CleanAll(Dedup([FieldAction(a), FieldAction(b)])) == [a, b]
  {
    var raw := [FieldAction(a), FieldAction(b)];
    FieldsDistinct(a, b);
    DedupDistinct(raw);
    FieldActionClean(a);
    FieldActionClean(b);
    assert raw[..1] == [FieldAction(a)];
  }

  /** Repeating the two field actions does not change the clean placeholders. */
  lemma RepeatedFieldsClean(a: string, b: string)
    requires IsName(a) && IsName(b) && a != b
    ensures var once := [FieldAction(a), FieldAction(b)];
            CleanAll(Dedup(once + once)) == [a, b]
  {
    var once := [FieldAction(a), FieldAction(b)];
    DedupAbsorb(once, once);
    TwoFieldsClean(a, b);
  }

  /** `Hello, {{.a}}! Your number is {{.b}}.`, as in the first test case with `a` = Name and `b` = Number. */
  lemma TwoFields(a: string, b: string)
    requires IsName(a) && IsName(b) && a != b
    ensures var e := ExtractOnce(TwoFieldsTemplate(a, b));
            && e.GetRawData() == [FieldAction(a), FieldAction(b)]
            && e.GetCleanData() == [a, b]
            && e.GetMapData() == map[a := "", b := ""]
  {
    FreshState(TwoFieldsTemplate(a, b));
    TwoFieldsWalk(a, b);
    TwoFieldsClean(a, b);
    TwoKeyMap(a, b);
  }

  /**
   `Hello, {{.a}}! Your number is {{.b}}. {{.a}} is again. {{.b}}`, as in
   the second test case: the raw placeholders keep the repeats, the clean
   ones do not.
   */
  lemma RepeatedFields(a: string, b: string)
    requires IsName(a) && IsName(b) && a != b
    ensures var e := ExtractOnce(RepeatedFieldsTemplate(a, b));
            && e.GetRawData() == [FieldAction(a), FieldAction(b), FieldAction(a), FieldAction(b)]
            && e.GetCleanData() == [a, b]
            && e.GetMapData() == map[a := "", b := ""]
  {
    FreshState(RepeatedFieldsTemplate(a, b));
    RepeatedFieldsWalk(a, b);
    RepeatedFieldsClean(a, b);
    TwoKeyMap(a, b);
  }

  /** Two actions, each followed by a text run. */
  function ActionPair(x: string, y: string): seq<Node> {
    [Action(x), Other([]), Action(y), Other([])]
  }

  lemma ActionPairWalk(x: string, y: string)
    ensures WalkAll(ActionPair(x, y)) == [x, y]
  {
    var r := ActionPair(x, y);
    WalkAllFrom(r, 3);
    WalkAllFrom(r, 2);
    WalkAllFrom(r, 1);
    WalkAllFrom(r, 0);
  }

  /** The tree of `{{$va := .a}} {{$vb := .b}} Hello, {{$va}}! Your number is {{$vb}}.` */
  function AssignmentsTemplate(va: string, a: string, vb: string, b: string): Template {
    Template(ActionPair(AssignAction(va, a), AssignAction(vb, b))
             + ActionPair(VarAction(va), VarAction(vb)))
  }

  function AssignmentsRaw(va: string, a: string, vb: string, b: string): seq<string> {
    [AssignAction(va, a), AssignAction(vb, b), VarAction(va), VarAction(vb)]
  }

  lemma AssignmentsWalk(va: string, a: string, vb: string, b: string)
    ensures WalkTemplate(AssignmentsTemplate(va, a, vb, b)) == AssignmentsRaw(va, a, vb, b)
  {
    var p1 := ActionPair(AssignAction(va, a), AssignAction(vb, b));
    var p2 := ActionPair(VarAction(va), VarAction(vb));
    ActionPairWalk(AssignAction(va, a), AssignAction(vb, b));
    ActionPairWalk(VarAction(va), VarAction(vb));
    WalkAllAppend(p1, p2);
  }

  lemma VarActionInjective(a: string, b: string)
    requires VarAction(a) == VarAction(b)
    ensures a == b
  {
    assert a == VarAction(a)[3..|VarAction(a)| - 2];
    assert b == VarAction(b)[3..|VarAction(b)| - 2];
  }

  /** The four raw placeholders are pairwise distinct: they differ in what they yield or in their variable. */
  lemma AssignmentsDistinct(va: string, a: string, vb: string, b: string)
    requires IsName(va) && IsName(a) && IsName(vb) && IsName(b) && a != b && va != vb
    ensures NoDuplicates(AssignmentsRaw(va, a, vb, b))
  {
    AssignActionClean(va, a);
    AssignActionClean(vb, b);
    VarActionClean(va);
    VarActionClean(vb);
    if VarAction(va) == VarAction(vb) {
      VarActionInjective(va, vb);
    }
  }

  lemma AssignmentsClean(va: string, a: string, vb: string, b: string)
    requires IsName(va) && IsName(a) && IsName(vb) && IsName(b) && a != b && va != vb
    ensures CleanAll(Dedup(AssignmentsRaw(va, a, vb, b))) == [a, b]
  {
    var raw := AssignmentsRaw(va, a, vb, b);
    AssignmentsDistinct(va, a, vb, b);
    DedupDistinct(raw);
    AssignActionClean(va, a);
    AssignActionClean(vb, b);
    VarActionClean(va);
    VarActionClean(vb);
    CleanAllPrefix(raw, 0);
    CleanAllPrefix(raw, 1);
    CleanAllPrefix(raw, 2);
    CleanAllPrefix(raw, 3);
    assert raw[..0] == [] && raw[..4] == raw;
  }

  /**
   `{{$va := .a}} {{$vb := .b}} Hello, {{$va}}! Your number is {{$vb}}.`,
   as in the third test case with `va` = `a` = Name and `vb` = `b` =
   Number: all four actions are raw placeholders; each assignment holds
   one dot and yields its field, each bare variable holds none and yields
   nothing.
   */
  lemma Assignments(va: string, a: string, vb: string, b: string)
    requires IsName(va) && IsName(a) && IsName(vb) && IsName(b) && a != b && va != vb
    ensures var e := ExtractOnce(AssignmentsTemplate(va, a, vb, b));
            && e.GetRawData() == [AssignAction(va, a), AssignAction(vb, b), VarAction(va), VarAction(vb)]
            && e.GetCleanData() == [a, b]
            && e.GetMapData() == map[a := "", b := ""]
  {
    FreshState(AssignmentsTemplate(va, a, vb, b));
    AssignmentsWalk(va, a, vb, b);
    AssignmentsClean(va, a, vb, b);
    TwoKeyMap(a, b);
  }

  /** `There is no placeholder here :(.`, the fourth test case: nothing at all is extracted. */
  lemma NoPlaceholder()
    ensures var e := ExtractOnce(Template([Other([])]));
            e.GetRawData() == [] && e.GetCleanData() == [] && e.GetMapData() == map[]
  {
    ActionFreeTemplate(Template([Other([])]));
  }

  /**
   `{{if .Ok}}{{.a}}{{end}}`: the action sits in the list under an if node,
   which is not a list node, so the walk never reaches it.
   */
  lemma ActionUnderIfIsMissed(a: string)
    ensures var e := ExtractOnce(Template([Other([List([Action(FieldAction(a))])])]));
            e.GetRawData() == [] && e.GetCleanData() == [] && e.GetMapData() == map[]
  {
    var t := Template([Other([List([Action(FieldAction(a))])])]);
    FreshState(t);
    WalkAllFrom(t.root, 0);
  }

  /**
   White space is trimmed before `}}` is removed, so in a text ending in
   ` }}` the space stays in the clean placeholder. `String()` never renders
   an action that way (it prints nothing between the pipeline and `}}`, so
   the template `{{.a }}` renders as `{{.a}}`); for the texts it does
   render the order of the trims does not matter (`TrimOrderAgrees`).
   */
  lemma SpaceBeforeClosingKept(a: string)
    requires IsName(a)
    ensures CleanEntry(FieldAction(a + " ")) == Some(a + " ")
  {
    FieldActionClean(a + " ");
  }
}
