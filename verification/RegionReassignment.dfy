/** The administrator's bulk reassignment of regions, which rewrites tags without a refresh. */
module RegionReassignment {
  import opened Common
  import opened Agreement
  import opened Consensus
  import opened ConsensusRuns

  predicate IsRegionOf(key: Key, item: string) { key.item == item && key.kind == REGION }

  /** All region tags of the item go, on whatever span. */
  function WithoutRegions(tags: seq<Tag>, item: string): seq<Tag> {
    if tags == [] then [] else
    var last := tags[|tags| - 1];
    WithoutRegions(tags[..|tags| - 1], item) + if IsRegionOf(last.key, item) then [] else [last]
  }

  /** Deletes the item's region tags and writes the administrator's on the whole text. No row is refreshed. */
  function ReassignRegion(s: State, admin: User, item: string, textLength: nat, regions: seq<Value>): State {
    s.(tags := WithoutRegions(s.tags, item) + HumanTags(admin, Key(item, REGION, 0, textLength), regions))
  }

  lemma {:induction false} WithoutRegionsKeeps(tags: seq<Tag>, item: string, t: Tag)
    ensures t in WithoutRegions(tags, item) <==> t in tags && !(t.key.item == item && t.key.kind == "region")
  {
    if tags != [] {
      var n := |tags| - 1;
      WithoutRegionsKeeps(tags[..n], item, t);
      assert tags == tags[..n] + [tags[n]];
    }
  }

  /** The item's region tags, human or not and on whatever span, give way to the administrator's on the whole text. */
  lemma ReassignmentTags(s: State, admin: User, item: string, textLength: nat, regions: seq<Value>, s': State, t: Tag)
    requires s' == ReassignRegion(s, admin, item, textLength, regions)
    ensures t in s'.tags <==>
      || (t in s.tags && !(t.key.item == item && t.key.kind == "region"))
      || (t == Tag(Key(item, "region", 0, textLength), t.value, admin, false) && t.value in regions)
    ensures s' == s.(tags := s'.tags)
  {
    WithoutRegionsKeeps(s.tags, item, t);
    HumanTagsAre(admin, Key(item, "region", 0, textLength), regions, t);
  }

  // ----- what recomputation gives afterwards -----

  lemma ValuesBySnoc(tags: seq<Tag>, last: Tag, key: Key, user: User)
    ensures var before := ValuesBy(tags, key, user);
      ValuesBy(tags + [last], key, user) ==
      if Counts(last, key) && last.annotator == user then before + {last.value} else before
  {
    assert (tags + [last])[..|tags|] == tags;
  }

  lemma {:induction false} TaggedMeansAnnotated(tags: seq<Tag>, key: Key)
    ensures Tagged(tags, key) <==> Annotators(tags, key) != []
  {
    if tags != [] {
      var front, last := tags[..|tags| - 1], tags[|tags| - 1];
      TaggedMeansAnnotated(front, key);
      if Tagged(front, key) {
        var k :| 0 <= k < |front| && Counts(front[k], key);
        assert Counts(tags[k], key);
      }
      if k :| 0 <= k < |tags| && Counts(tags[k], key) {
        assert k < |front| ==> Counts(front[k], key);
      }
    }
  }

  lemma {:induction false} RegionsAreGone(tags: seq<Tag>, item: string, key: Key)
    requires IsRegionOf(key, item)
    ensures Annotators(WithoutRegions(tags, item), key) == []
  {
    if tags != [] {
      var last := tags[|tags| - 1];
      var rest := WithoutRegions(tags[..|tags| - 1], item);
      RegionsAreGone(tags[..|tags| - 1], item, key);
      if IsRegionOf(last.key, item) {
        assert rest + [] == rest;
      } else {
        assert !Counts(last, key);
        AnnotatorsSnoc(rest, last, key);
      }
    }
  }

  lemma {:induction false} OthersStay(tags: seq<Tag>, item: string, key: Key, user: User)
    requires !IsRegionOf(key, item)
    ensures Annotators(WithoutRegions(tags, item), key) == Annotators(tags, key)
    ensures ValuesBy(WithoutRegions(tags, item), key, user) == ValuesBy(tags, key, user)
  {
    if tags != [] {
      var front, last := tags[..|tags| - 1], tags[|tags| - 1];
      var rest := WithoutRegions(front, item);
      OthersStay(front, item, key, user);
      if IsRegionOf(last.key, item) {
        assert rest + [] == rest && !Counts(last, key);
      } else {
        AnnotatorsSnoc(rest, last, key);
        ValuesBySnoc(rest, last, key, user);
      }
    }
  }

  function SetOf(values: seq<Value>): set<Value> { set v | v in values }

  /** One annotator on a key that nobody had tagged. */
  lemma {:induction false} OneAnnotator(tags: seq<Tag>, user: User, key: Key, values: seq<Value>)
    requires Annotators(tags, key) == []
    ensures Annotators(tags + HumanTags(user, key, values), key) == if values == [] then [] else [user]
  {
    if values == [] {
      assert tags + HumanTags(user, key, values) == tags;
    } else {
      var front, last := values[..|values| - 1], Tag(key, values[|values| - 1], user, false);
      OneAnnotator(tags, user, key, front);
      HumanTagsSplit(tags, user, key, values);
      AnnotatorsSnoc(tags + HumanTags(user, key, front), last, key);
    }
  }

  lemma SetOfSplit(values: seq<Value>)
    requires values != []
    ensures SetOf(values) == SetOf(values[..|values| - 1]) + {values[|values| - 1]}
  {
    assert values == values[..|values| - 1] + [values[|values| - 1]];
  }

  lemma {:induction false} ItsValues(tags: seq<Tag>, user: User, key: Key, values: seq<Value>)
    requires Annotators(tags, key) == []
    ensures ValuesBy(tags + HumanTags(user, key, values), key, user) == SetOf(values)
  {
    if values == [] {
      assert tags + HumanTags(user, key, values) == tags;
      NoValuesYet(tags, key, user);
    } else {
      var front, last := values[..|values| - 1], Tag(key, values[|values| - 1], user, false);
      ItsValues(tags, user, key, front);
      HumanTagsSplit(tags, user, key, values);
      ValuesBySnoc(tags + HumanTags(user, key, front), last, key, user);
      SetOfSplit(values);
    }
  }

  lemma HumanTagsSplit(tags: seq<Tag>, user: User, key: Key, values: seq<Value>)
    requires values != []
    ensures tags + HumanTags(user, key, values) ==
            (tags + HumanTags(user, key, values[..|values| - 1])) + [Tag(key, values[|values| - 1], user, false)]
  {
  }

  /** The row of a key that one annotator has given the values of the set, or nobody any. */
  function RowOf(values: set<Value>, annotatorN: nat): Row { Row(values, 1.0, annotatorN, false) }

  lemma RowOfNobody(tags: seq<Tag>, key: Key)
    requires Annotators(tags, key) == []
    ensures Fresh(tags, key) == RowOf({}, 0)
  {
    assert SetsOf(Annotators(tags, key), tags, key) == [];
  }

  lemma RowOfOne(tags: seq<Tag>, key: Key, user: User)
    requires Annotators(tags, key) == [user]
    ensures Fresh(tags, key) == RowOf(ValuesBy(tags, key, user), 1)
  {
    assert SetsOf(Annotators(tags, key), tags, key) == [ValuesBy(tags, key, user)];
  }

  // ----- which rows are stale afterwards -----

  /** The row that the whole text should have: the administrator's regions. */
  lemma WholeTextRow(tags: seq<Tag>, admin: User, item: string, n: nat, regions: seq<Value>)
    requires regions != []
    ensures var key := Key(item, REGION, 0, n);
      var all := WithoutRegions(tags, item) + HumanTags(admin, key, regions);
      Fresh(all, key) == RowOf(SetOf(regions), 1) && Tagged(all, key)
  {
    var key := Key(item, REGION, 0, n);
    var all := WithoutRegions(tags, item) + HumanTags(admin, key, regions);
    RegionsAreGone(tags, item, key);
    OneAnnotator(WithoutRegions(tags, item), admin, key, regions);
    ItsValues(WithoutRegions(tags, item), admin, key, regions);
    RowOfOne(all, key, admin);
    TaggedMeansAnnotated(all, key);
  }

  /** Region spans that get no tag: other spans of the item, and the whole text when no region is given. */
  lemma EmptyRow(tags: seq<Tag>, admin: User, item: string, n: nat, regions: seq<Value>, key: Key)
    requires IsRegionOf(key, item) && (regions == [] || key != Key(item, REGION, 0, n))
    ensures var all := WithoutRegions(tags, item) + HumanTags(admin, Key(item, REGION, 0, n), regions);
      Fresh(all, key) == RowOf({}, 0) && !Tagged(all, key)
  {
    var more := HumanTags(admin, Key(item, REGION, 0, n), regions);
    RegionsAreGone(tags, item, key);
    ValuesFrame(WithoutRegions(tags, item), more, key);
    RowOfNobody(WithoutRegions(tags, item) + more, key);
    TaggedMeansAnnotated(WithoutRegions(tags, item) + more, key);
  }

  /** Keys of other items and kinds. */
  lemma OtherRow(tags: seq<Tag>, admin: User, item: string, n: nat, regions: seq<Value>, key: Key)
    requires !IsRegionOf(key, item)
    ensures var all := WithoutRegions(tags, item) + HumanTags(admin, Key(item, REGION, 0, n), regions);
      Recompute(all, key) == Recompute(tags, key) && (Tagged(all, key) <==> Tagged(tags, key))
  {
    var kept, more := WithoutRegions(tags, item), HumanTags(admin, Key(item, REGION, 0, n), regions);
    forall u
      ensures Annotators(kept, key) == Annotators(tags, key) && ValuesBy(kept, key, u) == ValuesBy(tags, key, u)
    {
      OthersStay(tags, item, key, u);
    }
    OthersStay(tags, item, key, admin);
    ValuesFrame(kept, more, key);
    assert SetsOf(Annotators(tags, key), kept + more, key) == SetsOf(Annotators(tags, key), tags, key);
    TaggedMeansAnnotated(kept + more, key);
    TaggedMeansAnnotated(tags, key);
  }

  /**
   * When no refresh of the key is owed or under way, its row matches the tags after a reassignment exactly when
   * - for the whole text with regions given, the row already says that one annotator chose exactly those regions;
   * - for any other region span of the item, there is no row or it says that nobody chose any;
   * - for every other key, it matched before.
   */
  lemma ReassignRegionKeepsSyncIff(s: State, admin: User, item: string, n: nat, regions: seq<Value>, key: Key)
    requires Settled(s, key)
    ensures var whole := key == Key(item, REGION, 0, n) && regions != [];
      InSync(ReassignRegion(s, admin, item, n, regions), key) <==>
      if whole then key in s.consensus && s.consensus[key] == RowOf(SetOf(regions), 1)
      else if IsRegionOf(key, item) then key in s.consensus ==> s.consensus[key] == RowOf({}, 0)
      else InSync(s, key)
  {
    if key == Key(item, REGION, 0, n) && regions != [] {
      WholeTextRow(s.tags, admin, item, n, regions);
    } else if IsRegionOf(key, item) {
      EmptyRow(s.tags, admin, item, n, regions, key);
    } else {
      OtherRow(s.tags, admin, item, n, regions, key);
    }
  }

  /** One annotator, one refresh, then a reassignment to another region: the row says what nobody chose any more. */
  lemma ReassignmentGoesStale(user: User, admin: User, item: string, n: nat, x: Value, y: Value)
    requires x != y
    ensures var key, s := Key(item, REGION, 0, n), Run(EMPTY, TagAndRead(user, item, n, x) + [Upsert(0)]);
      Settled(s, key) && InSync(s, key) && !InSync(ReassignRegion(s, admin, item, n, [y]), key)
  {
    var key, tag := Key(item, REGION, 0, n), Tag(Key(item, REGION, 0, n), x, user, false);
    var row := Fresh([tag], key);
    assert [] + [tag] == [tag];
    TagAndReadEnds(EMPTY, user, item, n, x);
    RunAppend(EMPTY, TagAndRead(user, item, n, x), [Upsert(0)]);
    var s := State([tag], map[key := row], multiset{}, []);
    assert Run(EMPTY, TagAndRead(user, item, n, x) + [Upsert(0)]) == s by {
      assert [Upsert(0)][1..] == [];
      assert Removed([Computed(key, row)], 0) == [];
    }
    AnnotatorsSnoc([], tag, key);
    ValuesBySnoc([], tag, key, user);
    RowOfOne([tag], key, user);
    assert x in row.agreedValues && x !in SetOf([y]);
    ReassignRegionKeepsSyncIff(s, admin, item, n, [y], key);
  }
}
