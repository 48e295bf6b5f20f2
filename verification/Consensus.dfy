/** The stored consensus against the raw tags: what a refresh computes and stores. */
module Consensus {
  import opened Common
  import opened Agreement

  type User = string
  datatype Key = Key(item: string, kind: string, charStart: nat, charEnd: nat)
  datatype Tag = Tag(key: Key, value: Value, annotator: User, isMachine: bool)

  /** What the stored row keeps of a result: all values are left out. */
  datatype Row = Row(agreedValues: set<Value>, agreement: real, annotatorN: nat, needsAdjudication: bool)

  function ToRow(r: ConsensusResult): Row { Row(r.agreedValues, r.agreement, r.annotatorN, r.needsAdjudication) }

  predicate Counts(t: Tag, key: Key) { t.key == key && !t.isMachine }

  /** The annotators with human tags on the key, in order of their first tag. */
  function Annotators(tags: seq<Tag>, key: Key): seq<User> {
    if tags == [] then [] else
    var before, last := Annotators(tags[..|tags| - 1], key), tags[|tags| - 1];
    if Counts(last, key) && last.annotator !in before then before + [last.annotator] else before
  }

  function ValuesBy(tags: seq<Tag>, key: Key, user: User): set<Value> {
    if tags == [] then {} else
    var before, last := ValuesBy(tags[..|tags| - 1], key, user), tags[|tags| - 1];
    if Counts(last, key) && last.annotator == user then before + {last.value} else before
  }

  function SetsOf(users: seq<User>, tags: seq<Tag>, key: Key): (sets: seq<set<Value>>)
    ensures |sets| == |users| && forall k | 0 <= k < |sets| :: sets[k] == ValuesBy(tags, key, users[k])
  {
    seq(|users|, k requires 0 <= k < |users| => ValuesBy(tags, key, users[k]))
  }

  function Recompute(tags: seq<Tag>, key: Key): ConsensusResult {
    ConsensusOf(SetsOf(Annotators(tags, key), tags, key))
  }

  /** The row that the tags give. */
  function Fresh(tags: seq<Tag>, key: Key): Row { ToRow(Recompute(tags, key)) }

  // ----- the refresh -----

  class ConsensusStore {
    var tags: seq<Tag>
    var consensus: map<Key, Row>

    constructor ()
      ensures tags == [] && consensus == map[]
    {
      tags, consensus := [], map[];
    }

    /** The first half of a refresh: groups the human tags on the key by annotator and computes. */
    method ComputeConsensus(key: Key) returns (r: ConsensusResult)
      ensures r == Recompute(tags, key)
    {
      var order: seq<User> := [];
      var groups: map<User, set<Value>> := map[];
      for k := 0 to |tags|
        invariant Grouped(order, groups, tags[..k], key)
      {
        var tag := tags[k];
        GroupTag(order, groups, tags[..k], key, tag);
        assert tags[..k + 1] == tags[..k] + [tag];
        if Counts(tag, key) {
          if tag.annotator !in groups {
            order := order + [tag.annotator];
          }
          var before := if tag.annotator in groups then groups[tag.annotator] else {};
          groups := groups[tag.annotator := before + {tag.value}];
        }
      }
      assert tags[..|tags|] == tags;
      var sets := seq(|order|, k requires 0 <= k < |order| => if order[k] in groups then groups[order[k]] else {});
      assert sets == SetsOf(order, tags, key);
      r := ComputeAgreement(sets);
      ConsensusIsUnique(r, sets);
    }

    /** A refresh that runs alone: the upsert follows the read. */
    method RefreshConsensus(key: Key) returns (r: ConsensusResult)
      modifies this`consensus
      ensures r == Recompute(tags, key)
      ensures consensus == old(consensus)[key := Row(r.agreedValues, r.agreement, r.annotatorN, r.needsAdjudication)]
    {
      r := ComputeConsensus(key);
      consensus := consensus[key := ToRow(r)];
    }
  }

  /** The grouping so far: annotators in order of first tag, each with its values. */
  ghost predicate Grouped(order: seq<User>, groups: map<User, set<Value>>, tags: seq<Tag>, key: Key) {
    && order == Annotators(tags, key)
    && (forall u :: u in groups <==> u in order)
    && (forall u | u in groups :: groups[u] == ValuesBy(tags, key, u))
  }

  lemma GroupTag(order: seq<User>, groups: map<User, set<Value>>, tags: seq<Tag>, key: Key, tag: Tag)
    requires Grouped(order, groups, tags, key)
    ensures !Counts(tag, key) ==> Grouped(order, groups, tags + [tag], key)
    ensures Counts(tag, key) ==>
      var before := if tag.annotator in groups then groups[tag.annotator] else {};
      Grouped(if tag.annotator in groups then order else order + [tag.annotator],
              groups[tag.annotator := before + {tag.value}], tags + [tag], key)
  {
    assert (tags + [tag])[..|tags|] == tags;
    if tag.annotator !in groups {
      NoValuesYet(tags, key, tag.annotator);
    }
  }

  lemma {:induction false} NoValuesYet(tags: seq<Tag>, key: Key, user: User)
    requires user !in Annotators(tags, key)
    ensures ValuesBy(tags, key, user) == {}
  {
    if tags != [] {
      NoValuesYet(tags[..|tags| - 1], key, user);
    }
  }

  // ----- order and duplicates do not matter -----

  ghost predicate HasTag(tags: seq<Tag>, key: Key, user: User, value: Value) {
    exists k :: 0 <= k < |tags| && tags[k] == Tag(key, value, user, false)
  }

  lemma {:induction false} ValuesByMeans(tags: seq<Tag>, key: Key, user: User, value: Value)
    ensures value in ValuesBy(tags, key, user) <==> HasTag(tags, key, user, value)
  {
    if tags != [] {
      var front, n := tags[..|tags| - 1], |tags| - 1;
      ValuesByMeans(front, key, user, value);
      if HasTag(front, key, user, value) {
        var k :| 0 <= k < |front| && front[k] == Tag(key, value, user, false);
        assert tags[k] == front[k];
      }
      if HasTag(tags, key, user, value) {
        var k :| 0 <= k < |tags| && tags[k] == Tag(key, value, user, false);
        assert k < n ==> front[k] == tags[k];
      }
    }
  }

  lemma {:induction false} AnnotatorsMean(tags: seq<Tag>, key: Key, user: User)
    ensures user in Annotators(tags, key) <==> exists value :: HasTag(tags, key, user, value)
  {
    if tags != [] {
      var front, n := tags[..|tags| - 1], |tags| - 1;
      AnnotatorsMean(front, key, user);
      if value :| HasTag(front, key, user, value) {
        ValuesByMeans(front, key, user, value);
        ValuesByMeans(tags, key, user, value);
      }
      if Counts(tags[n], key) && tags[n].annotator == user {
        assert HasTag(tags, key, user, tags[n].value);
      } else if value :| HasTag(tags, key, user, value) {
        ValuesByMeans(front, key, user, value);
        ValuesByMeans(tags, key, user, value);
      }
    }
  }

  ghost predicate Distinct(users: seq<User>) {
    forall i, j | 0 <= i < j < |users| :: users[i] != users[j]
  }

  lemma {:induction false} AnnotatorsDistinct(tags: seq<Tag>, key: Key)
    ensures Distinct(Annotators(tags, key))
  {
    if tags != [] {
      AnnotatorsDistinct(tags[..|tags| - 1], key);
    }
  }

  ghost predicate SameMembers(a: seq<User>, b: seq<User>) { forall u :: u in a <==> u in b }

  lemma FirstIsMember(a: seq<User>)
    requires a != []
    ensures exists u :: u in a
  {
    assert a[0] in a;
  }

  /** Taking the same user out of two distinct lists with the same members leaves the same members. */
  lemma SameMembersWithout(a: seq<User>, b: seq<User>, m: nat)
    requires Distinct(a) && Distinct(b) && SameMembers(a, b) && a != [] && m < |b| && b[m] == a[|a| - 1]
    ensures Distinct(a[..|a| - 1]) && Distinct(b[..m] + b[m + 1..])
    ensures SameMembers(a[..|a| - 1], b[..m] + b[m + 1..])
  {
    var front, rest := a[..|a| - 1], b[..m] + b[m + 1..];
    forall u ensures u in front <==> u in rest {
      if u in rest {
        var i :| 0 <= i < |rest| && rest[i] == u;
        assert u == b[if i < m then i else i + 1] && u in a;
      }
      if u in front {
        assert u in a && u in b;
        var i :| 0 <= i < |b| && b[i] == u;
        assert u == rest[if i < m then i else i - 1];
      }
    }
  }

  lemma SetsWithout(a: seq<User>, m: nat, tags: seq<Tag>, key: Key)
    requires m < |a|
    ensures multiset(SetsOf(a, tags, key)) ==
      multiset(SetsOf(a[..m] + a[m + 1..], tags, key)) + multiset{ValuesBy(tags, key, a[m])}
  {
    var x, y := SetsOf(a[..m], tags, key), SetsOf(a[m + 1..], tags, key);
    assert SetsOf(a, tags, key) == x + [ValuesBy(tags, key, a[m])] + y;
    assert SetsOf(a[..m] + a[m + 1..], tags, key) == x + y;
  }

  /** Lists of distinct users with the same members give the same sets, up to order. */
  lemma {:induction false} SetsPermute(a: seq<User>, b: seq<User>, tags: seq<Tag>, key: Key)
    requires Distinct(a) && Distinct(b) && SameMembers(a, b)
    ensures multiset(SetsOf(a, tags, key)) == multiset(SetsOf(b, tags, key))
    decreases |a|
  {
    if a == [] {
      if b != [] {
        FirstIsMember(b);
      }
    } else {
      var n := |a| - 1;
      assert a[n] in b;
      var m :| 0 <= m < |b| && b[m] == a[n];
      SameMembersWithout(a, b, m);
      SetsPermute(a[..n], b[..m] + b[m + 1..], tags, key);
      SetsWithout(b, m, tags, key);
      SetsWithout(a, n, tags, key);
      assert a[..n] + a[n + 1..] == a[..n];
    }
  }

  /** Recomputation sees only which annotator gave which value: neither order nor duplicates of tags matter. */
  lemma RecomputeIgnoresOrderAndDuplicates(s: seq<Tag>, t: seq<Tag>, key: Key)
    requires forall user, value :: HasTag(s, key, user, value) <==> HasTag(t, key, user, value)
    ensures Recompute(s, key) == Recompute(t, key)
  {
    var a, b := Annotators(s, key), Annotators(t, key);
    AnnotatorsDistinct(s, key);
    AnnotatorsDistinct(t, key);
    forall u ensures u in a <==> u in b {
      AnnotatorsMean(s, key, u);
      AnnotatorsMean(t, key, u);
    }
    forall u ensures ValuesBy(s, key, u) == ValuesBy(t, key, u) {
      forall v ensures v in ValuesBy(s, key, u) <==> v in ValuesBy(t, key, u) {
        ValuesByMeans(s, key, u, v);
        ValuesByMeans(t, key, u, v);
      }
    }
    SetsPermute(a, b, s, key);
    assert SetsOf(b, s, key) == SetsOf(b, t, key);
    ConsensusIgnoresOrder(SetsOf(a, s, key), SetsOf(b, t, key), Recompute(s, key), Recompute(t, key));
  }

  /**
   * Recomputation is the consensus of the annotators who gave human tags on the key, each with the values they gave,
   * listed once each and in any order. Machine tags and tags on other keys play no part.
   */
  lemma RecomputeIsOverHumanTags(tags: seq<Tag>, key: Key, users: seq<User>, sets: seq<set<Value>>)
    requires Distinct(users) && |sets| == |users|
    requires forall u :: u in users <==> exists v :: HasTag(tags, key, u, v)
    requires forall k, v | 0 <= k < |users| :: v in sets[k] <==> HasTag(tags, key, users[k], v)
    ensures IsConsensus(Recompute(tags, key), sets)
  {
    var order := Annotators(tags, key);
    AnnotatorsDistinct(tags, key);
    forall u ensures u in order <==> u in users {
      AnnotatorsMean(tags, key, u);
    }
    SetsPermute(order, users, tags, key);
    forall k | 0 <= k < |users| ensures SetsOf(users, tags, key)[k] == sets[k] {
      forall v ensures v in ValuesBy(tags, key, users[k]) <==> v in sets[k] {
        ValuesByMeans(tags, key, users[k], v);
      }
    }
    assert SetsOf(users, tags, key) == sets;
    ConsensusIgnoresOrder(SetsOf(order, tags, key), sets, Recompute(tags, key), ConsensusOf(sets));
  }
}
