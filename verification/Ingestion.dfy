/** Cutting a cleaned document into corpus items with moving search cursors, as `ingestDocument` does. */
module Ingestion {
  import opened Common
  import opened Utf16
  import opened SplitText

  /** `text.indexOf(needle, from)`. */
  function IndexOf(text: Text, needle: Text, from: int): int
    decreases |text| - from
  {
    if from < 0 then IndexOfFrom(text, needle, 0) else IndexOfFrom(text, needle, Min(from, |text|))
  }

  function IndexOfFrom(text: Text, needle: Text, from: nat): int
    requires from <= |text|
    decreases |text| - from
  {
    if OccursAt(text, needle, from) then from
    else if from == |text| then -1
    else IndexOfFrom(text, needle, from + 1)
  }

  lemma OccursStart(text: Text, needle: Text, at: nat)
    requires OccursAt(text, needle, at) && needle != []
    ensures needle[0] == text[at]
  {
    assert text[at..at + |needle|][0] == text[at];
  }

  /**
   * Searching from the end of the previous piece finds the next piece at its own position: every earlier
   * occurrence would have to start with white space.
   */
  lemma {:induction false} SearchFindsPiece(text: Text, needle: Text, from: nat, at: nat)
    requires from <= at && OccursAt(text, needle, at) && SpaceBetween(text, from, at)
    requires needle != [] && !IsSpace(needle[0])
    ensures IndexOf(text, needle, from) == at
    decreases at - from
  {
    if from < at {
      if OccursAt(text, needle, from) {
        OccursStart(text, needle, from);
      }
      SearchFindsPiece(text, needle, from + 1, at);
    }
  }

  datatype Row =
    | ParentRow(position: nat, charOffset: int, text: Text)
    | LeafRow(parent: Option<nat>, position: nat, charOffset: int, text: Text)

  datatype Outcome = Outcome(rows: seq<Row>, ids: seq<nat>, skipped: nat)

  // ----- what ingestion does, told with the true positions instead of searches -----

  /** `nearDuplicate(n)` is the answer of the duplicate check to the leaf number `n` that it is asked about. */
  function AddLeaf(nearDuplicate: nat -> bool, o: Outcome, row: Row): Outcome {
    if nearDuplicate(|o.ids| + o.skipped) then o.(skipped := o.skipped + 1)
    else Outcome(o.rows + [row], o.ids + [|o.rows|], o.skipped)
  }

  function AddSentences(nearDuplicate: nat -> bool, o: Outcome, sentences: seq<Piece>, parent: nat, position: nat)
    : Outcome
    decreases sentences
  {
    if sentences == [] then o else
    var row := LeafRow(Some(parent), position, sentences[0].start, sentences[0].text);
    AddSentences(nearDuplicate, AddLeaf(nearDuplicate, o, row), sentences[1..], parent, position + 1)
  }

  function AddParagraph(nearDuplicate: nat -> bool, o: Outcome, p: Piece, position: nat): Outcome {
    var sentences := Split(SentenceEnd, p.text);
    if |sentences| <= 1 then AddLeaf(nearDuplicate, o, LeafRow(None, position, p.start, p.text))
    else
      AddSentences(nearDuplicate, o.(rows := o.rows + [ParentRow(position, p.start, p.text)]), sentences, |o.rows|, 0)
  }

  function AddParagraphs(nearDuplicate: nat -> bool, o: Outcome, ps: seq<Piece>, position: nat): Outcome
    decreases ps
  {
    if ps == [] then o
    else AddParagraphs(nearDuplicate, AddParagraph(nearDuplicate, o, ps[0], position), ps[1..], position + 1)
  }

  // ----- the leaves of a document, at their positions in the cleaned text -----

  function Shift(pieces: seq<Piece>, offset: nat): seq<Piece> {
    if pieces == [] then [] else [Piece(pieces[0].start + offset, pieces[0].text)] + Shift(pieces[1..], offset)
  }

  lemma ShiftCons(pieces: seq<Piece>, offset: nat, rest: seq<Piece>)
    requires pieces != []
    ensures Shift(pieces, offset) + rest ==
      [Piece(pieces[0].start + offset, pieces[0].text)] + (Shift(pieces[1..], offset) + rest)
  {
  }

  function ParagraphLeaves(p: Piece): seq<Piece> {
    var sentences := Split(SentenceEnd, p.text);
    if |sentences| <= 1 then [p] else Shift(sentences, p.start)
  }

  function DocumentLeaves(ps: seq<Piece>): seq<Piece> {
    if ps == [] then [] else ParagraphLeaves(ps[0]) + DocumentLeaves(ps[1..])
  }

  /** What occurs in a part of `text` occurs in `text`, and the part's white space is white space of `text`. */
  lemma Nested(text: Text, outer: Text, at: nat, i: nat, j: nat)
    requires OccursAt(text, outer, at) && i <= j <= |outer|
    ensures text[at + i..at + j] == outer[i..j]
    ensures SpaceBetween(outer, i, j) ==> SpaceBetween(text, at + i, at + j)
  {
    forall k | i <= k < j ensures text[at + k] == outer[k] {
      assert text[at..at + |outer|][k] == outer[k];
    }
    if SpaceBetween(outer, i, j) {
      forall k | at + i <= k < at + j ensures IsSpace(text[k]) {
        assert text[k] == outer[k - at];
      }
    }
  }

  lemma NestedPush(text: Text, p: Piece, s: Piece, from: nat, tail: seq<Piece>)
    requires OccursAt(text, p.text, p.start) && OccursAt(p.text, s.text, s.start)
    requires from <= s.start && SpaceBetween(p.text, from, s.start)
    requires s.text != [] && !IsSpace(s.text[0]) && !IsSpace(s.text[|s.text| - 1])
    requires Covers(text, tail, p.start + s.start + |s.text|)
    ensures Covers(text, [Piece(s.start + p.start, s.text)] + tail, p.start + from)
  {
    NestedHead(text, p, s, from);
    CoversPush(text, Piece(s.start + p.start, s.text), tail, p.start + from);
  }

  lemma NestedHead(text: Text, p: Piece, s: Piece, from: nat)
    requires OccursAt(text, p.text, p.start) && OccursAt(p.text, s.text, s.start)
    requires from <= s.start && SpaceBetween(p.text, from, s.start)
    ensures OccursAt(text, s.text, s.start + p.start) && SpaceBetween(text, p.start + from, s.start + p.start)
  {
    Nested(text, p.text, p.start, from, s.start);
    Nested(text, p.text, p.start, s.start, s.start + |s.text|);
  }

  lemma {:induction false} NestedCovers(text: Text, p: Piece, sentences: seq<Piece>, from: nat, rest: seq<Piece>,
                                        all: seq<Piece>)
    requires OccursAt(text, p.text, p.start) && Covers(p.text, sentences, from)
    requires Covers(text, rest, p.start + |p.text|)
    requires all == Shift(sentences, p.start) + rest
    ensures Covers(text, all, p.start + from)
  {
    if sentences == [] {
      assert all == rest;
      Nested(text, p.text, p.start, from, |p.text|);
      CoversFromSpace(text, rest, p.start + from, p.start + |p.text|);
    } else {
      NestedCovers(text, p, sentences[1..], sentences[0].start + |sentences[0].text|, rest,
                   Shift(sentences[1..], p.start) + rest);
      NestedStep(text, p, sentences, from, rest, Shift(sentences[1..], p.start) + rest, all);
    }
  }

  lemma NestedStep(text: Text, p: Piece, sentences: seq<Piece>, from: nat, rest: seq<Piece>, tail: seq<Piece>,
                   all: seq<Piece>)
    requires OccursAt(text, p.text, p.start) && Covers(p.text, sentences, from) && sentences != []
    requires tail == Shift(sentences[1..], p.start) + rest && all == Shift(sentences, p.start) + rest
    requires Covers(text, tail, p.start + (sentences[0].start + |sentences[0].text|))
    ensures Covers(text, all, p.start + from)
  {
    ShiftCons(sentences, p.start, rest);
    NestedPush(text, p, sentences[0], from, tail);
  }

  lemma ParagraphLeavesCover(text: Text, p: Piece, from: nat, rest: seq<Piece>)
    requires Covers(text, [p] + rest, from)
    ensures Covers(text, ParagraphLeaves(p) + rest, from)
  {
    assert ([p] + rest)[1..] == rest;
    var sentences := Split(SentenceEnd, p.text);
    if |sentences| > 1 {
      SplitCovers(SentenceEnd, p.text);
      NestedCovers(text, p, sentences, 0, rest, ParagraphLeaves(p) + rest);
      CoversFromSpace(text, ParagraphLeaves(p) + rest, from, p.start);
    }
  }

  lemma {:induction false} DocumentLeavesCoverFrom(text: Text, ps: seq<Piece>, from: nat)
    requires Covers(text, ps, from)
    ensures Covers(text, DocumentLeaves(ps), from)
  {
    if ps != [] {
      var rest := DocumentLeaves(ps[1..]);
      DocumentLeavesCoverFrom(text, ps[1..], ps[0].start + |ps[0].text|);
      CoversPush(text, ps[0], rest, from);
      ParagraphLeavesCover(text, ps[0], from, rest);
    }
  }

  /** The leaves of a document are disjoint, in order, and leave out nothing but white space. */
  lemma DocumentLeavesCover(cleaned: Text)
    ensures Covers(cleaned, DocumentLeaves(Split(ParagraphBreak, cleaned)), 0)
  {
    SplitCovers(ParagraphBreak, cleaned);
    DocumentLeavesCoverFrom(cleaned, Split(ParagraphBreak, cleaned), 0);
  }

  /** Every character that is not white space lies in exactly one leaf. */
  lemma EveryCharacterInOneLeaf(cleaned: Text, i: nat)
    requires i < |cleaned| && !IsSpace(cleaned[i])
    ensures InExactlyOne(DocumentLeaves(Split(ParagraphBreak, cleaned)), i)
  {
    DocumentLeavesCover(cleaned);
    CoversOnce(cleaned, DocumentLeaves(Split(ParagraphBreak, cleaned)), i);
  }

  // ----- where each leaf is stored -----

  /** The place of a leaf: a paragraph, or a sentence of a paragraph that has more than one. */
  datatype Spot = Spot(paragraph: nat, sentence: Option<nat>)

  function SentenceSpots(p: nat, from: nat, count: nat): seq<Spot>
    decreases count - from
  {
    if from >= count then [] else [Spot(p, Some(from))] + SentenceSpots(p, from + 1, count)
  }

  function ParagraphSpots(p: nat, count: nat): seq<Spot> {
    if count <= 1 then [Spot(p, None)] else SentenceSpots(p, 0, count)
  }

  /** The places of the leaves of the paragraphs from number `p` on. */
  function Spots(ps: seq<Piece>, p: nat): seq<Spot>
    decreases ps
  {
    if ps == [] then [] else ParagraphSpots(p, |Split(SentenceEnd, ps[0].text)|) + Spots(ps[1..], p + 1)
  }

  /** The row of a leaf: its number as position, and for a sentence a parent row with the paragraph. */
  predicate StoredAt(rows: seq<Row>, id: nat, all: seq<Piece>, spot: Spot) {
    && id < |rows| && spot.paragraph < |all|
    && var p, sentences := all[spot.paragraph], Split(SentenceEnd, all[spot.paragraph].text);
    match spot.sentence
    case None => |sentences| <= 1 && rows[id] == LeafRow(None, spot.paragraph, p.start, p.text)
    case Some(q) =>
      && 1 < |sentences| && q < |sentences|
      && rows[id].LeafRow? && rows[id].parent.Some? && rows[id].parent.value < id
      && rows[rows[id].parent.value] == ParentRow(spot.paragraph, p.start, p.text)
      && rows[id] == LeafRow(rows[id].parent, q, sentences[q].start, sentences[q].text)
  }

  /** The ids are those of the leaves that the duplicate check lets through, one after the other. */
  ghost predicate Kept(nearDuplicate: nat -> bool, rows: seq<Row>, ids: seq<nat>, all: seq<Piece>, spots: seq<Spot>) {
    if spots == [] then ids == [] else
    var n := |spots| - 1;
    if nearDuplicate(n) then Kept(nearDuplicate, rows, ids, all, spots[..n])
    else
      && ids != [] && StoredAt(rows, ids[|ids| - 1], all, spots[n])
      && Kept(nearDuplicate, rows, ids[..|ids| - 1], all, spots[..n])
  }

  /** The parent rows from number `from` on. */
  function ParentsIn(rows: seq<Row>, from: nat): seq<Row> {
    if |rows| <= from then [] else
    var last := rows[|rows| - 1];
    ParentsIn(rows[..|rows| - 1], from) + if last.ParentRow? then [last] else []
  }

  /** One parent row for each paragraph with more than one sentence. */
  function SplitParents(ps: seq<Piece>, p: nat): seq<Row>
    decreases ps
  {
    if ps == [] then []
    else ParentOf(ps[0], p) + SplitParents(ps[1..], p + 1)
  }

  function ParentOf(p: Piece, position: nat): seq<Row> {
    if |Split(SentenceEnd, p.text)| <= 1 then [] else [ParentRow(position, p.start, p.text)]
  }

  /** What has been stored on top of `rows` once the leaves at `spots` are through. */
  ghost predicate Built(nearDuplicate: nat -> bool, rows: seq<Row>, o: Outcome, all: seq<Piece>, spots: seq<Spot>,
                        parents: seq<Row>) {
    && rows <= o.rows && |o.ids| + o.skipped == |spots| && Kept(nearDuplicate, o.rows, o.ids, all, spots)
    && ParentsIn(o.rows, |rows|) == parents && |o.rows| == |rows| + |o.ids| + |parents|
  }

  lemma {:induction false} KeptAfterMoreRows(nearDuplicate: nat -> bool, rows: seq<Row>, more: seq<Row>, ids: seq<nat>,
                                             all: seq<Piece>, spots: seq<Spot>)
    requires Kept(nearDuplicate, rows, ids, all, spots)
    ensures Kept(nearDuplicate, rows + more, ids, all, spots)
  {
    if spots != [] {
      var n := |spots| - 1;
      KeptAfterMoreRows(nearDuplicate, rows, more, if nearDuplicate(n) then ids else ids[..|ids| - 1], all, spots[..n]);
    }
  }

  lemma ParentsInSnoc(rows: seq<Row>, from: nat, row: Row)
    requires from <= |rows|
    ensures ParentsIn(rows + [row], from) == ParentsIn(rows, from) + if row.ParentRow? then [row] else []
  {
    assert (rows + [row])[..|rows|] == rows;
  }

  lemma AddLeafBuilds(nearDuplicate: nat -> bool, rows: seq<Row>, o: Outcome, row: Row, all: seq<Piece>,
                      spots: seq<Spot>, parents: seq<Row>, spot: Spot)
    requires Built(nearDuplicate, rows, o, all, spots, parents)
    requires row.LeafRow? && StoredAt(o.rows + [row], |o.rows|, all, spot)
    ensures Built(nearDuplicate, rows, AddLeaf(nearDuplicate, o, row), all, spots + [spot], parents)
    ensures o.rows <= AddLeaf(nearDuplicate, o, row).rows
  {
    if !nearDuplicate(|spots|) {
      KeptAfterMoreRows(nearDuplicate, o.rows, [row], o.ids, all, spots);
      ParentsInSnoc(o.rows, |rows|, row);
    }
    KeptSnoc(nearDuplicate, AddLeaf(nearDuplicate, o, row).rows, o.ids, |o.rows|, all, spots, spot);
  }

  lemma KeptSnoc(nearDuplicate: nat -> bool, rows: seq<Row>, ids: seq<nat>, id: nat, all: seq<Piece>,
                 spots: seq<Spot>, spot: Spot)
    requires Kept(nearDuplicate, rows, ids, all, spots)
    ensures nearDuplicate(|spots|) ==> Kept(nearDuplicate, rows, ids, all, spots + [spot])
    ensures !nearDuplicate(|spots|) && StoredAt(rows, id, all, spot) ==>
      Kept(nearDuplicate, rows, ids + [id], all, spots + [spot])
  {
    assert (spots + [spot])[..|spots|] == spots && (ids + [id])[..|ids|] == ids;
  }

  lemma SentenceStored(rows: seq<Row>, all: seq<Piece>, p: nat, q: nat, parent: nat, row: Row)
    requires p < |all| && q < |Split(SentenceEnd, all[p].text)| && 1 < |Split(SentenceEnd, all[p].text)|
    requires parent < |rows| && rows[parent] == ParentRow(p, all[p].start, all[p].text)
    requires var s := Split(SentenceEnd, all[p].text)[q]; row == LeafRow(Some(parent), q, s.start, s.text)
    ensures StoredAt(rows + [row], |rows|, all, Spot(p, Some(q)))
  {
  }

  lemma {:induction false} AddSentencesBuild(nearDuplicate: nat -> bool, rows: seq<Row>, o: Outcome, all: seq<Piece>,
                                             p: nat, q: nat, parent: nat, spots: seq<Spot>, parents: seq<Row>)
    returns (o': Outcome)
    requires Built(nearDuplicate, rows, o, all, spots, parents) && p < |all|
    requires q <= |Split(SentenceEnd, all[p].text)| && 1 < |Split(SentenceEnd, all[p].text)|
    requires parent < |o.rows| && o.rows[parent] == ParentRow(p, all[p].start, all[p].text)
    ensures var sentences := Split(SentenceEnd, all[p].text);
      && o' == AddSentences(nearDuplicate, o, sentences[q..], parent, q)
      && Built(nearDuplicate, rows, o', all, spots + SentenceSpots(p, q, |sentences|), parents)
    decreases |Split(SentenceEnd, all[p].text)| - q
  {
    var sentences := Split(SentenceEnd, all[p].text);
    if q == |sentences| {
      o' := o;
      assert spots + [] == spots;
    } else {
      var row := LeafRow(Some(parent), q, sentences[q].start, sentences[q].text);
      assert sentences[q..][0] == sentences[q] && sentences[q..][1..] == sentences[q + 1..];
      SentenceStored(o.rows, all, p, q, parent, row);
      AddLeafBuilds(nearDuplicate, rows, o, row, all, spots, parents, Spot(p, Some(q)));
      o' := AddSentencesBuild(nearDuplicate, rows, AddLeaf(nearDuplicate, o, row), all, p, q + 1, parent,
                              spots + [Spot(p, Some(q))], parents);
      MoveFirst(spots, Spot(p, Some(q)), SentenceSpots(p, q + 1, |sentences|));
    }
  }

  lemma MoveFirst<T>(front: seq<T>, x: T, rest: seq<T>)
    ensures front + ([x] + rest) == (front + [x]) + rest
  {
  }

  lemma AddParentBuilds(nearDuplicate: nat -> bool, rows: seq<Row>, o: Outcome, all: seq<Piece>, spots: seq<Spot>,
                        parents: seq<Row>, row: Row)
    requires Built(nearDuplicate, rows, o, all, spots, parents) && row.ParentRow?
    ensures Built(nearDuplicate, rows, o.(rows := o.rows + [row]), all, spots, parents + [row])
  {
    KeptAfterMoreRows(nearDuplicate, o.rows, [row], o.ids, all, spots);
    ParentsInSnoc(o.rows, |rows|, row);
  }

  lemma AddParagraphBuilds(nearDuplicate: nat -> bool, rows: seq<Row>, o: Outcome, all: seq<Piece>, p: nat,
                           spots: seq<Spot>, parents: seq<Row>)
    requires Built(nearDuplicate, rows, o, all, spots, parents) && p < |all|
    ensures Built(nearDuplicate, rows, AddParagraph(nearDuplicate, o, all[p], p), all,
                  spots + ParagraphSpots(p, |Split(SentenceEnd, all[p].text)|), parents + ParentOf(all[p], p))
  {
    var sentences := Split(SentenceEnd, all[p].text);
    if |sentences| <= 1 {
      AddLeafBuilds(nearDuplicate, rows, o, LeafRow(None, p, all[p].start, all[p].text), all, spots, parents,
                    Spot(p, None));
      assert parents + [] == parents;
    } else {
      var parent := ParentRow(p, all[p].start, all[p].text);
      AddParentBuilds(nearDuplicate, rows, o, all, spots, parents, parent);
      assert sentences[0..] == sentences;
      var o' := AddSentencesBuild(nearDuplicate, rows, o.(rows := o.rows + [parent]), all, p, 0, |o.rows|,
                                  spots, parents + [parent]);
    }
  }

  lemma {:induction false} AddParagraphsBuild(nearDuplicate: nat -> bool, rows: seq<Row>, o: Outcome, all: seq<Piece>,
                                              p: nat, spots: seq<Spot>, parents: seq<Row>)
    returns (o': Outcome)
    requires Built(nearDuplicate, rows, o, all, spots, parents) && p <= |all|
    ensures o' == AddParagraphs(nearDuplicate, o, all[p..], p)
    ensures Built(nearDuplicate, rows, o', all, spots + Spots(all[p..], p), parents + SplitParents(all[p..], p))
    decreases |all| - p
  {
    if p == |all| {
      o' := o;
      assert spots + [] == spots && parents + [] == parents;
    } else {
      var here, own := ParagraphSpots(p, |Split(SentenceEnd, all[p].text)|), ParentOf(all[p], p);
      assert all[p..][0] == all[p] && all[p..][1..] == all[p + 1..];
      AddParagraphBuilds(nearDuplicate, rows, o, all, p, spots, parents);
      o' := AddParagraphsBuild(nearDuplicate, rows, AddParagraph(nearDuplicate, o, all[p], p), all, p + 1,
                               spots + here, parents + own);
      Regroup(spots, here, Spots(all[p + 1..], p + 1));
      Regroup(parents, own, SplitParents(all[p + 1..], p + 1));
    }
  }

  lemma Regroup<T>(a: seq<T>, b: seq<T>, c: seq<T>)
    ensures a + (b + c) == (a + b) + c
  {
  }

  // ----- the places are all places, in text order -----

  predicate IsSpot(all: seq<Piece>, spot: Spot) {
    && spot.paragraph < |all|
    && var count := |Split(SentenceEnd, all[spot.paragraph].text)|;
    match spot.sentence
    case None => count <= 1
    case Some(q) => 1 < count && q < count
  }

  predicate Before(s: Spot, t: Spot) {
    || s.paragraph < t.paragraph
    || (s.paragraph == t.paragraph && s.sentence.Some? && t.sentence.Some? && s.sentence.value < t.sentence.value)
  }

  predicate InOrder(spots: seq<Spot>) {
    forall m, n | 0 <= m < n < |spots| :: Before(spots[m], spots[n])
  }

  lemma {:induction false} SentenceSpotsAre(p: nat, from: nat, count: nat)
    requires from <= count
    ensures |SentenceSpots(p, from, count)| == count - from
    ensures forall n | 0 <= n < count - from :: SentenceSpots(p, from, count)[n] == Spot(p, Some(from + n))
    decreases count - from
  {
    if from < count {
      SentenceSpotsAre(p, from + 1, count);
    }
  }

  lemma ParagraphSpotsAre(all: seq<Piece>, p: nat, spots: seq<Spot>)
    requires p < |all| && spots == ParagraphSpots(p, |Split(SentenceEnd, all[p].text)|)
    ensures InOrder(spots) && forall s :: s in spots <==> IsSpot(all, s) && s.paragraph == p
  {
    var count := |Split(SentenceEnd, all[p].text)|;
    if 1 < count {
      SentenceSpotsAre(p, 0, count);
      forall s | IsSpot(all, s) && s.paragraph == p ensures s in spots {
        assert s == spots[s.sentence.value];
      }
    }
  }

  lemma JoinInOrder(a: seq<Spot>, b: seq<Spot>)
    requires InOrder(a) && InOrder(b) && forall s, t | s in a && t in b :: Before(s, t)
    ensures InOrder(a + b)
  {
  }

  /** The places of a document are exactly its unsplit paragraphs and the sentences of the others, in text order. */
  lemma {:induction false} SpotsAreAll(all: seq<Piece>, p: nat)
    requires p <= |all|
    ensures InOrder(Spots(all[p..], p))
    ensures forall s :: s in Spots(all[p..], p) <==> IsSpot(all, s) && p <= s.paragraph
    decreases |all| - p
  {
    if p < |all| {
      var here := ParagraphSpots(p, |Split(SentenceEnd, all[p].text)|);
      assert all[p..][0] == all[p] && all[p..][1..] == all[p + 1..];
      SpotsAreAll(all, p + 1);
      ParagraphSpotsAre(all, p, here);
      JoinInOrder(here, Spots(all[p + 1..], p + 1));
    }
  }

  /** The leaf of a place, at its position in the document. */
  function LeafOf(all: seq<Piece>, spot: Spot): Piece
    requires IsSpot(all, spot)
  {
    var p := all[spot.paragraph];
    match spot.sentence
    case None => p
    case Some(q) =>
      var sentence := Split(SentenceEnd, p.text)[q];
      Piece(sentence.start + p.start, sentence.text)
  }

  lemma {:induction false} ShiftIs(pieces: seq<Piece>, offset: nat)
    ensures |Shift(pieces, offset)| == |pieces|
    ensures forall n | 0 <= n < |pieces| ::
      Shift(pieces, offset)[n] == Piece(pieces[n].start + offset, pieces[n].text)
  {
    if pieces != [] {
      ShiftIs(pieces[1..], offset);
    }
  }

  lemma ParagraphLeavesAt(all: seq<Piece>, p: nat)
    requires p < |all|
    ensures var leaves, spots := ParagraphLeaves(all[p]), ParagraphSpots(p, |Split(SentenceEnd, all[p].text)|);
      |leaves| == |spots| && forall n | 0 <= n < |leaves| :: IsSpot(all, spots[n]) && leaves[n] == LeafOf(all, spots[n])
  {
    var sentences := Split(SentenceEnd, all[p].text);
    if 1 < |sentences| {
      SentenceSpotsAre(p, 0, |sentences|);
      ShiftIs(sentences, all[p].start);
    }
  }

  lemma {:induction false} LeavesAt(all: seq<Piece>, p: nat)
    requires p <= |all|
    ensures var leaves, spots := DocumentLeaves(all[p..]), Spots(all[p..], p);
      |leaves| == |spots| && forall n | 0 <= n < |leaves| :: IsSpot(all, spots[n]) && leaves[n] == LeafOf(all, spots[n])
    decreases |all| - p
  {
    if p < |all| {
      assert all[p..][0] == all[p] && all[p..][1..] == all[p + 1..];
      ParagraphLeavesAt(all, p);
      LeavesAt(all, p + 1);
    }
  }

  // ----- what the stored rows say -----

  /** Row `id` is a leaf whose parent offset plus own offset is the position of `leaf`. */
  ghost predicate PlacedAt(rows: seq<Row>, id: nat, leaf: Piece) {
    && id < |rows| && rows[id].LeafRow? && rows[id].text == leaf.text
    && match rows[id].parent
       case None => rows[id].charOffset == leaf.start
       case Some(parent) =>
         parent < id && rows[parent].ParentRow? && rows[parent].charOffset + rows[id].charOffset == leaf.start
  }

  /** The numbers below `n` that the duplicate check lets through, in order. */
  ghost predicate LetThrough(nearDuplicate: nat -> bool, which: seq<nat>, n: nat) {
    && (forall k, l | 0 <= k < l < |which| :: which[k] < which[l])
    && (forall m: nat :: m in which <==> m < n && !nearDuplicate(m))
  }

  lemma LetThroughSnoc(nearDuplicate: nat -> bool, which: seq<nat>, n: nat)
    requires LetThrough(nearDuplicate, which, n)
    ensures LetThrough(nearDuplicate, if nearDuplicate(n) then which else which + [n], n + 1)
  {
    forall k | 0 <= k < |which| ensures which[k] < n {
      assert which[k] in which;
    }
  }

  /** The `k`-th id is stored at place number `which[k]`. */
  ghost predicate StoredAll(rows: seq<Row>, ids: seq<nat>, all: seq<Piece>, spots: seq<Spot>, which: seq<nat>) {
    |which| == |ids| && forall k | 0 <= k < |ids| :: which[k] < |spots| && StoredAt(rows, ids[k], all, spots[which[k]])
  }

  lemma StoredAllSnoc(rows: seq<Row>, ids: seq<nat>, all: seq<Piece>, spots: seq<Spot>, which: seq<nat>, id: nat,
                      spot: Spot)
    requires StoredAll(rows, ids, all, spots, which)
    ensures StoredAll(rows, ids, all, spots + [spot], which)
    ensures StoredAt(rows, id, all, spot) ==> StoredAll(rows, ids + [id], all, spots + [spot], which + [|spots|])
  {
  }

  /** The `k`-th id belongs to the `k`-th leaf that is let through. */
  lemma {:induction false} KeptWhich(nearDuplicate: nat -> bool, rows: seq<Row>, ids: seq<nat>, all: seq<Piece>,
                                     spots: seq<Spot>) returns (which: seq<nat>)
    requires Kept(nearDuplicate, rows, ids, all, spots)
    ensures LetThrough(nearDuplicate, which, |spots|) && StoredAll(rows, ids, all, spots, which)
  {
    which := [];
    if spots != [] {
      var n := |spots| - 1;
      assert spots == spots[..n] + [spots[n]];
      if nearDuplicate(n) {
        which := KeptWhich(nearDuplicate, rows, ids, all, spots[..n]);
        StoredAllSnoc(rows, ids, all, spots[..n], which, 0, spots[n]);
      } else {
        var id := ids[|ids| - 1];
        assert ids == ids[..|ids| - 1] + [id];
        which := KeptWhich(nearDuplicate, rows, ids[..|ids| - 1], all, spots[..n]);
        StoredAllSnoc(rows, ids[..|ids| - 1], all, spots[..n], which, id, spots[n]);
      }
      LetThroughSnoc(nearDuplicate, which, n);
      which := if nearDuplicate(n) then which else which + [n];
    }
  }

  function ParentOffset(rows: seq<Row>, id: nat): int
    requires id < |rows| && rows[id].LeafRow?
  {
    match rows[id].parent
    case None => 0
    case Some(parent) => if parent < |rows| then rows[parent].charOffset else 0
  }

  /** The position in the document of the leaf stored in row `id`. */
  function Position(rows: seq<Row>, id: nat): int
    requires id < |rows| && rows[id].LeafRow?
  {
    ParentOffset(rows, id) + rows[id].charOffset
  }

  /** The row holds a non-empty slice of the cleaned text, at parent offset plus leaf offset. */
  ghost predicate StoresSlice(rows: seq<Row>, id: nat, cleaned: Text) {
    && id < |rows| && rows[id].LeafRow? && rows[id].text != []
    && 0 <= Position(rows, id) && OccursAt(cleaned, rows[id].text, Position(rows, id))
  }

  /** The stored leaves are disjoint slices of the cleaned text, in text order. */
  ghost predicate InDocument(rows: seq<Row>, ids: seq<nat>, cleaned: Text) {
    && (forall k | 0 <= k < |ids| :: StoresSlice(rows, ids[k], cleaned))
    && (forall k, l | 0 <= k < l < |ids| :: Position(rows, ids[k]) + |rows[ids[k]].text| <= Position(rows, ids[l]))
  }

  lemma PlacedStoresSlice(rows: seq<Row>, id: nat, leaves: seq<Piece>, n: nat, cleaned: Text)
    requires Covers(cleaned, leaves, 0) && n < |leaves| && PlacedAt(rows, id, leaves[n])
    ensures StoresSlice(rows, id, cleaned) && Position(rows, id) == leaves[n].start
  {
    CoversAt(cleaned, leaves, 0, n);
  }

  lemma PlacedInDocument(rows: seq<Row>, ids: seq<nat>, leaves: seq<Piece>, which: seq<nat>, cleaned: Text)
    requires Covers(cleaned, leaves, 0) && |which| == |ids|
    requires forall k, l | 0 <= k < l < |which| :: which[k] < which[l]
    requires forall k | 0 <= k < |ids| :: which[k] < |leaves| && PlacedAt(rows, ids[k], leaves[which[k]])
    ensures InDocument(rows, ids, cleaned)
  {
    forall k | 0 <= k < |ids| ensures StoresSlice(rows, ids[k], cleaned) {
      PlacedStoresSlice(rows, ids[k], leaves, which[k], cleaned);
    }
    forall k, l | 0 <= k < l < |ids| ensures Position(rows, ids[k]) + |rows[ids[k]].text| <= Position(rows, ids[l]) {
      PlacedStoresSlice(rows, ids[k], leaves, which[k], cleaned);
      PlacedStoresSlice(rows, ids[l], leaves, which[l], cleaned);
      CoversOrder(cleaned, leaves, 0, which[k], which[l]);
    }
  }

  lemma StoredIsPlaced(rows: seq<Row>, id: nat, all: seq<Piece>, spot: Spot)
    requires StoredAt(rows, id, all, spot)
    ensures IsSpot(all, spot) && PlacedAt(rows, id, LeafOf(all, spot))
  {
  }

  /**
   * The `k`-th id belongs to the `k`-th leaf that the duplicate check lets through, the others are skipped. Its row is
   * numbered within its paragraph or document and, below its parent, sliced out of the cleaned text at its position;
   * the slices are disjoint and in order. The other new rows are one parent for each split paragraph.
   */
  lemma IngestionIsFaithful(nearDuplicate: nat -> bool, rows: seq<Row>, cleaned: Text, all: seq<Piece>, o: Outcome)
    returns (which: seq<nat>)
    requires all == Split(ParagraphBreak, cleaned)
    requires o == AddParagraphs(nearDuplicate, Outcome(rows, [], 0), all, 0)
    ensures var leaves, spots := DocumentLeaves(all), Spots(all, 0);
      && |spots| == |leaves| && LetThrough(nearDuplicate, which, |leaves|)
      && |o.ids| == |which| && o.skipped == |leaves| - |which|
      && forall k | 0 <= k < |which| :: which[k] < |leaves|
           && StoredAt(o.rows, o.ids[k], all, spots[which[k]]) && PlacedAt(o.rows, o.ids[k], leaves[which[k]])
    ensures rows <= o.rows && ParentsIn(o.rows, |rows|) == SplitParents(all, 0)
    ensures |o.rows| == |rows| + |o.ids| + |SplitParents(all, 0)|
    ensures InDocument(o.rows, o.ids, cleaned)
  {
    var start := Outcome(rows, [], 0);
    assert all[0..] == all;
    assert ParentsIn(rows, |rows|) == [];
    var o' := AddParagraphsBuild(nearDuplicate, rows, start, all, 0, [], []);
    assert [] + Spots(all, 0) == Spots(all, 0) && [] + SplitParents(all, 0) == SplitParents(all, 0);
    which := KeptWhich(nearDuplicate, o.rows, o.ids, all, Spots(all, 0));
    LeavesAt(all, 0);
    forall k | 0 <= k < |which| ensures PlacedAt(o.rows, o.ids[k], DocumentLeaves(all)[which[k]]) {
      StoredIsPlaced(o.rows, o.ids[k], all, Spots(all, 0)[which[k]]);
    }
    DocumentLeavesCover(cleaned);
    PlacedInDocument(o.rows, o.ids, DocumentLeaves(all), which, cleaned);
  }

  /** New ids are numbers of new rows, each used once. */
  ghost predicate FreshIds(o: Outcome, bound: nat) {
    && (forall k | 0 <= k < |o.ids| :: bound <= o.ids[k] < |o.rows|)
    && (forall k, l | 0 <= k < l < |o.ids| :: o.ids[k] < o.ids[l])
  }

  lemma {:induction false} AddSentencesFresh(nearDuplicate: nat -> bool, o: Outcome, sentences: seq<Piece>,
                                             parent: nat, position: nat, bound: nat)
    requires FreshIds(o, bound) && bound <= |o.rows|
    ensures var o' := AddSentences(nearDuplicate, o, sentences, parent, position);
      FreshIds(o', bound) && |o.rows| <= |o'.rows|
    decreases sentences
  {
    if sentences != [] {
      var row := LeafRow(Some(parent), position, sentences[0].start, sentences[0].text);
      AddSentencesFresh(nearDuplicate, AddLeaf(nearDuplicate, o, row), sentences[1..], parent, position + 1, bound);
    }
  }

  lemma {:induction false} AddParagraphsFresh(nearDuplicate: nat -> bool, o: Outcome, ps: seq<Piece>,
                                              position: nat, bound: nat)
    requires FreshIds(o, bound) && bound <= |o.rows|
    ensures var o' := AddParagraphs(nearDuplicate, o, ps, position); FreshIds(o', bound) && |o.rows| <= |o'.rows|
    decreases ps
  {
    if ps != [] {
      var p := ps[0];
      AddSentencesFresh(nearDuplicate, o.(rows := o.rows + [ParentRow(position, p.start, p.text)]),
                        Split(SentenceEnd, p.text), |o.rows|, 0, bound);
      AddParagraphsFresh(nearDuplicate, AddParagraph(nearDuplicate, o, p, position), ps[1..], position + 1, bound);
    }
  }

  /** Rows are numbered by insertion; the task list holds the item of every review task, at item version 1. */
  class Corpus {
    var items: seq<Row>
    var reviews: seq<nat>

    ghost predicate Valid()
      reads this
    {
      forall id | id in reviews :: id < |items|
    }

    method InsertLeafIfNotDuplicate(
        nearDuplicate: bool, parent: Option<nat>, position: nat, charOffset: int, text: Text)
      returns (inserted: Option<nat>)
      modifies this`items
      ensures var row := LeafRow(parent, position, charOffset, text);
        if nearDuplicate then inserted == None && items == old(items)
        else inserted == Some(|old(items)|) && items == old(items) + [row]
    {
      if nearDuplicate {
        inserted := None;
      } else {
        inserted := Some(|items|);
        items := items + [LeafRow(parent, position, charOffset, text)];
      }
    }

    constructor ()
      ensures Valid() && items == [] && reviews == []
    {
      items, reviews := [], [];
    }

    /** A review task is spawned unless the item already has one. */
    method SpawnReview(id: nat)
      modifies this`reviews
      ensures reviews == if id in old(reviews) then old(reviews) else old(reviews) + [id]
    {
      if id !in reviews {
        reviews := reviews + [id];
      }
    }

    method IngestSentences(nearDuplicate: nat -> bool, paragraphText: Text, sentences: seq<Piece>, parent: nat,
                           ids: seq<nat>, skipped: nat)
      returns (ids': seq<nat>, skipped': nat)
      requires Covers(paragraphText, sentences, 0)
      modifies this`items
      ensures Outcome(items, ids', skipped') ==
        AddSentences(nearDuplicate, Outcome(old(items), ids, skipped), sentences, parent, 0)
    {
      ids', skipped' := ids, skipped;
      var searchFrom := 0;
      for k := 0 to |sentences|
        invariant 0 <= searchFrom <= |paragraphText| && Covers(paragraphText, sentences[k..], searchFrom)
        invariant AddSentences(nearDuplicate, Outcome(items, ids', skipped'), sentences[k..], parent, k)
          == AddSentences(nearDuplicate, Outcome(old(items), ids, skipped), sentences, parent, 0)
      {
        var sentence := sentences[k].text;
        assert sentences[k..][0] == sentences[k] && sentences[k..][1..] == sentences[k + 1..];
        SearchFindsPiece(paragraphText, sentence, searchFrom, sentences[k].start);
        var offset := IndexOf(paragraphText, sentence, searchFrom);
        searchFrom := offset + |sentence|;
        var result := InsertLeafIfNotDuplicate(nearDuplicate(|ids'| + skipped'), Some(parent), k, offset, sentence);
        if result.Some? {
          ids' := ids' + [result.value];
        } else {
          skipped' := skipped' + 1;
        }
      }
    }

    method IngestParagraph(nearDuplicate: nat -> bool, p: Piece, offset: int, position: nat, ids: seq<nat>,
                           skipped: nat)
      returns (ids': seq<nat>, skipped': nat)
      requires offset == p.start
      modifies this`items
      ensures Outcome(items, ids', skipped') ==
        AddParagraph(nearDuplicate, Outcome(old(items), ids, skipped), p, position)
    {
      var sentences := Split(SentenceEnd, p.text);
      if |sentences| <= 1 {
        ids', skipped' := ids, skipped;
        var result := InsertLeafIfNotDuplicate(nearDuplicate(|ids| + skipped), None, position, offset, p.text);
        if result.Some? {
          ids' := ids' + [result.value];
        } else {
          skipped' := skipped' + 1;
        }
      } else {
        var parent := |items|;
        items := items + [ParentRow(position, offset, p.text)];
        SplitCovers(SentenceEnd, p.text);
        ids', skipped' := IngestSentences(nearDuplicate, p.text, sentences, parent, ids, skipped);
      }
    }

    method IngestParagraphs(nearDuplicate: nat -> bool, cleaned: Text, paragraphs: seq<Piece>)
      returns (ids: seq<nat>, skipped: nat)
      requires Covers(cleaned, paragraphs, 0)
      modifies this`items
      ensures Outcome(items, ids, skipped) == AddParagraphs(nearDuplicate, Outcome(old(items), [], 0), paragraphs, 0)
    {
      ids, skipped := [], 0;
      var searchFrom := 0;
      for k := 0 to |paragraphs|
        invariant 0 <= searchFrom <= |cleaned| && Covers(cleaned, paragraphs[k..], searchFrom)
        invariant AddParagraphs(nearDuplicate, Outcome(items, ids, skipped), paragraphs[k..], k)
          == AddParagraphs(nearDuplicate, Outcome(old(items), [], 0), paragraphs, 0)
      {
        var paragraphText := paragraphs[k].text;
        assert paragraphs[k..][0] == paragraphs[k] && paragraphs[k..][1..] == paragraphs[k + 1..];
        SearchFindsPiece(cleaned, paragraphText, searchFrom, paragraphs[k].start);
        var offset := IndexOf(cleaned, paragraphText, searchFrom);
        searchFrom := offset + |paragraphText|;
        ids, skipped := IngestParagraph(nearDuplicate, paragraphs[k], offset, k, ids, skipped);
      }
    }

    /** One review task per id, none of them skipped. */
    method SpawnReviews(ids: seq<nat>)
      requires forall k | 0 <= k < |ids| :: ids[k] !in reviews
      requires forall k, l | 0 <= k < l < |ids| :: ids[k] < ids[l]
      modifies this`reviews
      ensures reviews == old(reviews) + ids
    {
      for k := 0 to |ids|
        invariant reviews == old(reviews) + ids[..k]
      {
        assert ids[k] !in ids[..k];
        assert ids[..k + 1] == ids[..k] + [ids[k]];
        SpawnReview(ids[k]);
      }
      assert ids[..|ids|] == ids;
    }

    /** `accepted` is the verdict of the length and marker filters. */
    method IngestDocument(nearDuplicate: nat -> bool, cleaned: Text, accepted: bool)
      returns (corpusItemIds: seq<nat>, nearDuplicatesSkipped: nat)
      requires Valid()
      modifies this`items, this`reviews
      ensures Valid()
      ensures Outcome(items, corpusItemIds, nearDuplicatesSkipped) ==
        AddParagraphs(nearDuplicate, Outcome(old(items), [], 0),
                      if accepted then Split(ParagraphBreak, cleaned) else [], 0)
      ensures reviews == old(reviews) + corpusItemIds
    {
      var paragraphs: seq<Piece> := [];
      if accepted {
        paragraphs := Split(ParagraphBreak, cleaned);
        SplitCovers(ParagraphBreak, cleaned);
        corpusItemIds, nearDuplicatesSkipped := IngestParagraphs(nearDuplicate, cleaned, paragraphs);
      } else {
        corpusItemIds, nearDuplicatesSkipped := [], 0;
      }
      AddParagraphsFresh(nearDuplicate, Outcome(old(items), [], 0), paragraphs, 0, |old(items)|);
      SpawnReviews(corpusItemIds);
    }
  }
}
