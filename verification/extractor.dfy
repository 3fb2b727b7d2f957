/**
 The placeholder extractor of template.go: construction, the extraction
 pass, and what the three views it keeps promise to a caller.

 The Go extractor is a `*templateDataExtractor` whose `ExtractPlaceHolders`
 mutates three fields in place; here its state is a value and each call
 is a function from the state before to the state after. The getters
 `GetRawData`, `GetCleanData` and `GetMapData` return the three fields.
 */
module TemplateExtract {

  import opened Wrappers
  import opened Parse
  import opened Placeholders

  /**
   A parsed `*template.Template`: `root` holds the children of its tree's
   root list node, `Tree.Root`.
   */
  datatype Template = Template(root: seq<Node>)

  /** The error `NewTemplateDataExtractor` reports ("nil template"). */
  datatype Error = NilTemplate

  /** The fields of `templateDataExtractor`. */
  datatype Extractor = Extractor(
    tmpl: Template,
    rawPlaceHolders: seq<string>,
    cleanPlaceHolders: seq<string>,
    placeHolderMap: map<string, string>)
  {
    function GetRawData(): seq<string> { rawPlaceHolders }
    function GetCleanData(): seq<string> { cleanPlaceHolders }
    function GetMapData(): map<string, string> { placeHolderMap }
  }

  /**
   `NewTemplateDataExtractor`: rejects an absent template; otherwise an
   extractor over it whose three views are all empty.
   */
  function NewTemplateDataExtractor(t: Option<Template>): (r: Result<Extractor, Error>)
    ensures r.Failure? <==> t.None?
    ensures r.Failure? ==> r.error == NilTemplate
    ensures r.Success? ==> && r.value.tmpl == t.value
                           && r.value.GetRawData() == []
                           && r.value.GetCleanData() == []
                           && r.value.GetMapData() == map[]
  {
    match t
    case None => Failure(NilTemplate)
    case Some(tm) => Success(Extractor(tm, [], [], map[]))
  }

  /** The raw placeholders one walk of the template's tree produces. */
  function WalkTemplate(t: Template): (raw: seq<string>) {
    Walk(List(t.root))
  }

  /**
   `ExtractPlaceHolders`: walks the tree appending to the raw placeholders,
   derives clean placeholders from ALL raw placeholders collected so far and
   appends them, then adds every clean placeholder to the map.
   */
  function ExtractPlaceHolders(e: Extractor): (e': Extractor)
    ensures e'.tmpl == e.tmpl
    ensures e'.rawPlaceHolders == e.rawPlaceHolders + WalkTemplate(e.tmpl)
    ensures |e'.cleanPlaceHolders| <= |e.cleanPlaceHolders| + |Dedup(e'.rawPlaceHolders)|
    ensures e'.placeHolderMap.Keys == e.placeHolderMap.Keys + set x | x in e'.cleanPlaceHolders
  {
    var raw := e.rawPlaceHolders + WalkTemplate(e.tmpl);
    var clean := e.cleanPlaceHolders + CleanAll(Dedup(raw));
    e.(rawPlaceHolders := raw,
       cleanPlaceHolders := clean,
       placeHolderMap := PopulateMap(e.placeHolderMap, clean))
  }

  /**
   `ExtractPlaceHolders` as the Go code runs it: `listTemplateNodes` from
   the root list node, then `clean`, then `populatePlaceHoldersMap`.
   */
  method RunExtractPlaceHolders(e: Extractor) returns (e': Extractor)
    ensures e' == ExtractPlaceHolders(e)
  {
    var raw := ListTemplateNodes(List(e.tmpl.root), e.rawPlaceHolders);
    var clean := Clean(raw, e.cleanPlaceHolders);
    var m := PopulatePlaceHoldersMap(e.placeHolderMap, clean);
    e' := Extractor(e.tmpl, raw, clean, m);
  }

  /**
   What the three views promise of each other: every clean placeholder
   comes from some raw placeholder, and the map holds exactly the clean
   placeholders as keys, each with the unset value.
   */
  ghost predicate Consistent(e: Extractor) {
    && (forall x :: x in e.cleanPlaceHolders ==>
          exists s :: s in e.rawPlaceHolders && CleanEntry(s) == Some(x))
    && e.placeHolderMap.Keys == (set x | x in e.cleanPlaceHolders)
    && (forall k :: k in e.placeHolderMap ==> e.placeHolderMap[k] == Unset)
  }

  /** A freshly constructed extractor is consistent. */
  lemma NewIsConsistent(t: Template)
    ensures NewTemplateDataExtractor(Some(t)).Success?
    ensures Consistent(NewTemplateDataExtractor(Some(t)).value)
  {
  }

  /** Every extraction pass, including a repeated one, keeps the three views consistent. */
  lemma ExtractPreservesConsistent(e: Extractor)
    requires Consistent(e)
    ensures Consistent(ExtractPlaceHolders(e))
  {
    var e' := ExtractPlaceHolders(e);
    var raw := e'.rawPlaceHolders;
    var added := CleanAll(Dedup(raw));
    assert e'.cleanPlaceHolders == e.cleanPlaceHolders + added;
    forall x | x in e'.cleanPlaceHolders
      ensures exists s :: s in raw && CleanEntry(s) == Some(x)
    {
      if x in e.cleanPlaceHolders {
        var s :| s in e.rawPlaceHolders && CleanEntry(s) == Some(x);
        assert s in raw;
      } else {
        assert x in added;
        CleanFromRaw(raw, x);
      }
    }
  }

  /** A clean placeholder derived from the raw placeholders comes from one of them. */
  lemma CleanFromRaw(raw: seq<string>, x: string)
    ensures x in CleanAll(Dedup(raw)) ==> exists s :: s in raw && CleanEntry(s) == Some(x)
  {
    if x in CleanAll(Dedup(raw)) {
      CleanAllMembership(Dedup(raw), x);
      var i :| 0 <= i < |Dedup(raw)| && CleanEntry(Dedup(raw)[i]) == Some(x);
      DedupIsFirstOccurrences(raw);
      assert Dedup(raw)[i] in Dedup(raw);
    }
  }

  /**
   One pass over a new extractor: the raw placeholders are the walk's
   output with repeats kept, the clean ones are derived from their
   de-duplicated copy, so there are no more clean than distinct raw
   placeholders, and the map's keys are exactly the clean placeholders.
   */
  lemma FreshExtraction(t: Template)
    ensures var e := ExtractPlaceHolders(NewTemplateDataExtractor(Some(t)).value);
            && e.GetRawData() == WalkTemplate(t)
            && e.GetCleanData() == CleanAll(Dedup(WalkTemplate(t)))
            && |e.GetCleanData()| <= |Dedup(e.GetRawData())| <= |e.GetRawData()|
            && e.GetMapData().Keys == (set x | x in e.GetCleanData())
            && (forall k :: k in e.GetMapData() ==> e.GetMapData()[k] == Unset)
  {
    FreshState(t);
    FreshViews(t, WalkTemplate(t));
  }

  /** The views of the state `FreshState` describes, one property at a time. */
  lemma FreshViews(t: Template, w: seq<string>)
    ensures var c := CleanAll(Dedup(w));
            var e := Extractor(t, w, c, PopulateMap(map[], c));
            && |e.GetCleanData()| <= |Dedup(e.GetRawData())| <= |e.GetRawData()|
            && e.GetMapData().Keys == (set x | x in e.GetCleanData())
            && (forall k :: k in e.GetMapData() ==> e.GetMapData()[k] == Unset)
  {
    var c := CleanAll(Dedup(w));
    var m := PopulateMap(map[], c);
    forall k | k in m
      ensures m[k] == Unset
    {
      assert k in c;
    }
  }

  /** A template without any action node yields empty raw and clean placeholders and an empty map. */
  lemma ActionFreeTemplate(t: Template)
    requires forall i :: 0 <= i < |t.root| ==> ActionFree(t.root[i])
    ensures var e := ExtractPlaceHolders(NewTemplateDataExtractor(Some(t)).value);
            e.GetRawData() == [] && e.GetCleanData() == [] && e.GetMapData() == map[]
  {
    ActionFreeWalkAll(t.root);
  }

  /**
   Calling `ExtractPlaceHolders` a second time appends the walk's output to
   the raw placeholders again and the same clean placeholders to the clean
   ones, and leaves the map as it was.
   */
  lemma ExtractTwice(t: Template)
    ensures var e1 := ExtractPlaceHolders(NewTemplateDataExtractor(Some(t)).value);
            var e2 := ExtractPlaceHolders(e1);
            && e2.GetRawData() == e1.GetRawData() + e1.GetRawData()
            && e2.GetCleanData() == e1.GetCleanData() + e1.GetCleanData()
            && e2.GetMapData() == e1.GetMapData()
  {
    var w := WalkTemplate(t);
    var c := CleanAll(Dedup(w));
    var e1 := Extractor(t, w, c, PopulateMap(map[], c));
    FreshState(t);
    ExtractAgain(e1);
  }

  /** Helper: the state one extraction pass leaves behind in a new extractor. */
  lemma FreshState(t: Template)
    ensures var w := WalkTemplate(t);
            var c := CleanAll(Dedup(w));
            ExtractPlaceHolders(NewTemplateDataExtractor(Some(t)).value)
              == Extractor(t, w, c, PopulateMap(map[], c))
  {
    var w := WalkTemplate(t);
    assert [] + w == w;
    var c := CleanAll(Dedup(w));
    assert [] + c == c;
  }

  lemma ExtractAgain(e: Extractor)
    requires e.rawPlaceHolders == WalkTemplate(e.tmpl)
    requires e.cleanPlaceHolders == CleanAll(Dedup(e.rawPlaceHolders))
    requires e.placeHolderMap == PopulateMap(map[], e.cleanPlaceHolders)
    ensures ExtractPlaceHolders(e)
              == e.(rawPlaceHolders := e.rawPlaceHolders + e.rawPlaceHolders,
                    cleanPlaceHolders := e.cleanPlaceHolders + e.cleanPlaceHolders)
  {
    var w, c := e.rawPlaceHolders, e.cleanPlaceHolders;
    DedupAbsorb(w, w);
    PopulateMapAgain(e.placeHolderMap, c + c);
  }
}
