/** The in-memory keyword index: a mutable document log searched by token overlap. */
module KeywordStore {
  import opened Wrappers

  datatype Doc = Doc(text: string, source: Option<string>)

  /** A scored document; `pos` says which stored entry it is and takes no part in the ranking. */
  datatype Hit = Hit(pos: nat, doc: Doc, score: nat)

  // ---------- the log ----------

  datatype Event = Add(docs: seq<Doc>) | DeleteSource(source: string) | DeleteAll

  function Without(docs: seq<Doc>, source: string): seq<Doc> {
    if docs == [] then []
    else
      var last := docs[|docs| - 1];
      Without(docs[..|docs| - 1], source) + (if last.source == Some(source) then [] else [last])
  }

  function Apply(docs: seq<Doc>, e: Event): seq<Doc> {
    match e
    case Add(ds) => docs + ds
    case DeleteSource(source) => Without(docs, source)
    case DeleteAll => []
  }

  /** What the store holds after a run of calls. */
  function Replay(log: seq<Event>): seq<Doc> {
    if log == [] then [] else Apply(Replay(log[..|log| - 1]), log[|log| - 1])
  }

  // ---------- ranking ----------

  /** Where a stable sort by descending score puts `h` among hits found earlier. */
  function Insert(ranked: seq<Hit>, h: Hit): seq<Hit> {
    if ranked == [] || ranked[|ranked| - 1].score >= h.score then ranked + [h]
    else Insert(ranked[..|ranked| - 1], h) + [ranked[|ranked| - 1]]
  }

  /** `list.sort(key=score, reverse=True)`, which is stable. */
  function StableDescending(hits: seq<Hit>): seq<Hit> {
    if hits == [] then [] else Insert(StableDescending(hits[..|hits| - 1]), hits[|hits| - 1])
  }

  /** `hits[:k]` with Python's reading of a negative bound. */
  function Slice<T>(s: seq<T>, k: int): seq<T> {
    if k >= 0 then (if k < |s| then s[..k] else s)
    else if |s| + k >= 0 then s[..|s| + k] else []
  }

  /** How texts are cut into tokens, and the score, in ten-thousandths, of an overlap among `total` query tokens. */
  datatype Scoring = Scoring(tokens: string -> set<string>, score: (nat, nat) -> nat)

  function ScoreOf(sc: Scoring, query: string, doc: Doc): nat {
    var q := sc.tokens(query);
    if q == {} then 0 else sc.score(|q * sc.tokens(doc.text)|, |q|)
  }

  /** The documents with a positive score, in stored order. */
  function Scored(sc: Scoring, query: string, docs: seq<Doc>): seq<Hit> {
    if docs == [] then []
    else
      var n := |docs| - 1;
      Scored(sc, query, docs[..n])
      + (if ScoreOf(sc, query, docs[n]) > 0 then [Hit(n, docs[n], ScoreOf(sc, query, docs[n]))] else [])
  }

  function Search(sc: Scoring, docs: seq<Doc>, query: string, k: int): seq<Hit> {
    Slice(StableDescending(Scored(sc, query, docs)), k)
  }

  class KeywordVectorStore {
    const scoring: Scoring
    var docs: seq<Doc>

    constructor (scoring: Scoring)
      ensures this.scoring == scoring && docs == Replay([])
    {
      this.scoring := scoring;
      docs := [];
    }

    /** Ids are `kw-<i>` for the indices the documents get; the model keeps the numbers. */
    method AddDocuments(documents: seq<Doc>) returns (ids: seq<nat>)
      modifies this
      ensures docs == Apply(old(docs), Add(documents))
      ensures |ids| == |documents| && forall i :: 0 <= i < |ids| ==> ids[i] == |old(docs)| + i
    {
      var start := |docs|;
      docs := docs + documents;
      ids := seq(|documents|, i => start + i);
    }

    method SimilaritySearch(query: string, k: int) returns (hits: seq<Hit>)
      ensures hits == Search(scoring, docs, query, k)
    {
      var q := scoring.tokens(query);
      if q == {} {
        NoTokensNoHits(scoring, query, docs);
        return [];
      }
      var scored: seq<Hit> := [];
      for i := 0 to |docs|
        invariant scored == Scored(scoring, query, docs[..i])
      {
        assert docs[..i + 1][..i] == docs[..i];
        var score := scoring.score(|q * scoring.tokens(docs[i].text)|, |q|);
        if score > 0 {
          scored := scored + [Hit(i, docs[i], score)];
        }
      }
      assert docs[..|docs|] == docs;
      scored := StableDescending(scored);
      return Slice(scored, k);
    }

    method DeleteBySource(source: string)
      modifies this
      ensures docs == Apply(old(docs), DeleteSource(source))
    {
      var kept: seq<Doc> := [];
      for i := 0 to |docs|
        invariant docs == old(docs) && kept == Without(docs[..i], source)
      {
        assert docs[..i + 1][..i] == docs[..i];
        if docs[i].source != Some(source) {
          kept := kept + [docs[i]];
        }
      }
      assert docs[..|docs|] == docs;
      docs := kept;
    }

    method DeleteCollection()
      modifies this
      ensures docs == Apply(old(docs), DeleteAll)
    {
      docs := [];
    }
  }

  // ---------- what the store holds ----------

  /** Some later call deletes `d`. */
  predicate Killed(d: Doc, later: seq<Event>) {
    exists e <- later :: e == DeleteAll || (e.DeleteSource? && d.source == Some(e.source))
  }

  function Alive(docs: seq<Doc>, later: seq<Event>): seq<Doc> {
    if docs == [] then []
    else (if Killed(docs[0], later) then [] else [docs[0]]) + Alive(docs[1..], later)
  }

  /** The insertion history minus the documents deleted later. */
  function Survivors(log: seq<Event>): seq<Doc> {
    if log == [] then []
    else (if log[0].Add? then Alive(log[0].docs, log[1..]) else []) + Survivors(log[1..])
  }

  /** After any run of calls the store holds exactly the documents inserted and not deleted since, in order. */
  lemma {:induction false} StoreHoldsSurvivors(log: seq<Event>)
    ensures Replay(log) == Survivors(log)
  {
    if log != [] {
      var init, e := log[..|log| - 1], log[|log| - 1];
      assert log == init + [e];
      StoreHoldsSurvivors(init);
      SurvivorsStep(init, e);
    }
  }

  lemma {:induction false} SurvivorsStep(log: seq<Event>, e: Event)
    ensures Survivors(log + [e]) == Apply(Survivors(log), e)
  {
    if log == [] {
      if e.Add? {
        AllAlive(e.docs);
      }
      assert [e][1..] == [];
      assert Survivors([e]) == (if e.Add? then Alive(e.docs, []) else []);
    } else {
      var rest := log[1..];
      assert (log + [e])[1..] == rest + [e];
      SurvivorsStep(rest, e);
      var born := if log[0].Add? then Alive(log[0].docs, rest) else [];
      if log[0].Add? {
        AliveStep(log[0].docs, rest, e);
      }
      if e.DeleteSource? {
        WithoutConcat(born, Survivors(rest), e.source);
      } else if e.Add? {
        assert born + (Survivors(rest) + e.docs) == (born + Survivors(rest)) + e.docs;
      }
    }
  }

  lemma {:induction false} AllAlive(docs: seq<Doc>)
    ensures Alive(docs, []) == docs
  {
    if docs != [] {
      AllAlive(docs[1..]);
    }
  }

  lemma {:induction false} AliveStep(docs: seq<Doc>, later: seq<Event>, e: Event)
    ensures Alive(docs, later + [e]) == if e.Add? then Alive(docs, later) else Apply(Alive(docs, later), e)
  {
    if docs != [] {
      var d, rest := docs[0], docs[1..];
      AliveStep(rest, later, e);
      KilledStep(d, later, e);
      if e.DeleteSource? {
        var head := if Killed(d, later) then [] else [d];
        WithoutConcat(head, Alive(rest, later), e.source);
        assert head != [] ==> head[..0] == [];
      }
    }
  }

  lemma KilledStep(d: Doc, later: seq<Event>, e: Event)
    ensures Killed(d, later + [e]) <==>
            Killed(d, later) || e == DeleteAll || (e.DeleteSource? && d.source == Some(e.source))
  {
    assert forall x :: x in later + [e] <==> x in later || x == e;
  }

  lemma {:induction false} WithoutConcat(a: seq<Doc>, b: seq<Doc>, source: string)
    ensures Without(a + b, source) == Without(a, source) + Without(b, source)
  {
    if b == [] {
      assert a + b == a;
    } else {
      var init := b[..|b| - 1];
      assert (a + b)[..|a + b| - 1] == a + init;
      WithoutConcat(a, init, source);
      var tail := if b[|b| - 1].source == Some(source) then [] else [b[|b| - 1]];
      assert Without(a, source) + (Without(init, source) + tail) == (Without(a, source) + Without(init, source)) + tail;
    }
  }

  // ---------- what a search returns ----------

  /** Strictly ahead: a higher score, or the same score stored earlier. */
  predicate Ahead(a: Hit, b: Hit) {
    a.score > b.score || (a.score == b.score && a.pos < b.pos)
  }

  predicate Ranked(hits: seq<Hit>) {
    forall i, j :: 0 <= i < j < |hits| ==> Ahead(hits[i], hits[j])
  }

  /** `h` is the hit for a stored document with a positive score. */
  predicate Matches(sc: Scoring, query: string, docs: seq<Doc>, h: Hit) {
    h.pos < |docs| && h.doc == docs[h.pos] && h.score == ScoreOf(sc, query, h.doc) && h.score > 0
  }

  predicate Positive(sc: Scoring, query: string, doc: Doc) {
    ScoreOf(sc, query, doc) > 0
  }

  lemma {:induction false} ScoredAreMatches(sc: Scoring, query: string, docs: seq<Doc>)
    ensures forall h :: h in Scored(sc, query, docs) <==> Matches(sc, query, docs, h)
    ensures forall i, j :: 0 <= i < j < |Scored(sc, query, docs)| ==>
              Scored(sc, query, docs)[i].pos < Scored(sc, query, docs)[j].pos
  {
    if docs != [] {
      var n := |docs| - 1;
      var init := docs[..n];
      ScoredAreMatches(sc, query, init);
      forall h ensures h in Scored(sc, query, docs) <==> Matches(sc, query, docs, h) {
        if h.pos < n {
          assert docs[h.pos] == init[h.pos];
        }
      }
      assert forall h :: h in Scored(sc, query, init) ==> h.pos < n;
    }
  }

  lemma {:induction false} InsertRanks(ranked: seq<Hit>, h: Hit)
    requires Ranked(ranked) && forall x :: x in ranked ==> x.pos < h.pos
    ensures Ranked(Insert(ranked, h))
    ensures forall x :: x in Insert(ranked, h) <==> x in ranked || x == h
    ensures |Insert(ranked, h)| == |ranked| + 1
  {
    if ranked != [] && ranked[|ranked| - 1].score < h.score {
      var init, last := ranked[..|ranked| - 1], ranked[|ranked| - 1];
      InsertRanks(init, h);
      assert ranked == init + [last];
      assert forall x :: x in Insert(init, h) ==> Ahead(x, last);
    } else {
      assert forall x :: x in ranked ==> Ahead(x, h);
    }
  }

  lemma {:induction false} SortRanks(hits: seq<Hit>)
    requires forall i, j :: 0 <= i < j < |hits| ==> hits[i].pos < hits[j].pos
    ensures Ranked(StableDescending(hits))
    ensures forall x :: x in StableDescending(hits) <==> x in hits
    ensures |StableDescending(hits)| == |hits|
  {
    if hits != [] {
      var init, last := hits[..|hits| - 1], hits[|hits| - 1];
      SortRanks(init);
      assert hits == init + [last];
      InsertRanks(StableDescending(init), last);
    }
  }

  /** A ranking is determined by the hits in it, so a search has one right answer. */
  lemma {:induction false} RankingIsUnique(a: seq<Hit>, b: seq<Hit>)
    requires Ranked(a) && Ranked(b) && forall h :: h in a <==> h in b
    ensures a == b
  {
    assert b != [] ==> b[0] in b;
    if a != [] {
      assert a[0] in b && b[0] in a;
      assert a[0] == b[0];
      assert a == [a[0]] + a[1..] && b == [b[0]] + b[1..];
      assert a[0] !in a[1..] && b[0] !in b[1..];
      forall h ensures h in a[1..] <==> h in b[1..] {
        assert h in a <==> h == a[0] || h in a[1..];
        assert h in b <==> h == b[0] || h in b[1..];
      }
      RankingIsUnique(a[1..], b[1..]);
    }
  }

  /** How many of `n` hits a bound lets through. */
  function Wanted(n: nat, k: int): nat {
    if k >= n then n else if k >= 0 then k else if n + k >= 0 then n + k else 0
  }

  lemma SliceKeepsBest(ranked: seq<Hit>, k: int)
    requires Ranked(ranked)
    ensures var hits := Slice(ranked, k);
            && Ranked(hits) && hits <= ranked && |hits| == Wanted(|ranked|, k)
            && (forall x, h :: x in hits && h in ranked && h !in hits ==> Ahead(x, h))
  {
    var hits := Slice(ranked, k);
    forall x, h | x in hits && h in ranked ensures h in hits || Ahead(x, h) {
      var i :| 0 <= i < |hits| && hits[i] == x;
      var j :| 0 <= j < |ranked| && ranked[j] == h;
      assert ranked[i] == x;
      if j < |hits| {
        assert hits[j] == h;
      }
    }
  }

  /**
   A search returns the best stored documents with a positive score, as many as the bound says: at
   most `k`, or for a negative bound all but the last `-k`. They come in descending score, ties in
   stored order, and no document left out is ahead of one returned.
   */
  lemma SearchReturnsTheBest(sc: Scoring, docs: seq<Doc>, query: string, k: int)
    ensures var hits := Search(sc, docs, query, k);
            var positives := set i | 0 <= i < |docs| && Positive(sc, query, docs[i]);
            && Ranked(hits)
            && (forall h :: h in hits ==> Matches(sc, query, docs, h))
            && |hits| == Wanted(|positives|, k)
            && (forall x, h :: x in hits && Matches(sc, query, docs, h) && h !in hits ==> Ahead(x, h))
  {
    var scored := Scored(sc, query, docs);
    var ranked := StableDescending(scored);
    ScoredAreMatches(sc, query, docs);
    SortRanks(scored);
    CountScored(sc, query, docs);
    SliceKeepsBest(ranked, k);
  }

  lemma {:induction false} PositionsCount(hits: seq<Hit>)
    requires forall i, j :: 0 <= i < j < |hits| ==> hits[i].pos < hits[j].pos
    ensures |(set h <- hits :: h.pos)| == |hits|
  {
    if hits != [] {
      var init, last := hits[..|hits| - 1], hits[|hits| - 1];
      PositionsCount(init);
      assert hits == init + [last];
      assert (set h <- hits :: h.pos) == (set h <- init :: h.pos) + {last.pos};
      assert forall h :: h in init ==> h.pos < last.pos;
    }
  }

  lemma CountScored(sc: Scoring, query: string, docs: seq<Doc>)
    ensures |Scored(sc, query, docs)| == |(set i | 0 <= i < |docs| && Positive(sc, query, docs[i]))|
  {
    var hits := Scored(sc, query, docs);
    var positives := set i | 0 <= i < |docs| && Positive(sc, query, docs[i]);
    ScoredAreMatches(sc, query, docs);
    PositionsCount(hits);
    forall i | i in positives ensures i in (set h <- hits :: h.pos) {
      assert Matches(sc, query, docs, Hit(i, docs[i], ScoreOf(sc, query, docs[i])));
    }
    assert (set h <- hits :: h.pos) == positives;
  }

  /** A document's score is that of how many of the query's tokens it has, among how many. */
  lemma ScoreCountsSharedTokens(sc: Scoring, query: string, doc: Doc)
    ensures ScoreOf(sc, query, doc) ==
            if |sc.tokens(query)| == 0 then 0
            else sc.score(|(set t | t in sc.tokens(query) && t in sc.tokens(doc.text))|, |sc.tokens(query)|)
  {
    assert sc.tokens(query) * sc.tokens(doc.text) == set t | t in sc.tokens(query) && t in sc.tokens(doc.text);
  }

  /** With no query tokens nothing is found. */
  lemma {:induction false} NoTokensNoHits(sc: Scoring, query: string, docs: seq<Doc>)
    requires sc.tokens(query) == {}
    ensures Scored(sc, query, docs) == []
    ensures forall k :: Search(sc, docs, query, k) == []
  {
    if docs != [] {
      NoTokensNoHits(sc, query, docs[..|docs| - 1]);
    }
  }

  // ---------- the ids ----------

  function Span(lo: nat, hi: nat): (s: set<nat>)
    requires lo <= hi
    ensures forall i :: i in s <==> lo <= i < hi
    decreases hi - lo
  {
    if lo == hi then {} else {lo} + Span(lo + 1, hi)
  }

  /** Every id number handed out by a run of calls. */
  function Issued(log: seq<Event>): set<nat> {
    if log == [] then {}
    else
      var init, e := log[..|log| - 1], log[|log| - 1];
      Issued(init) + (if e.Add? then Span(|Replay(init)|, |Replay(init)| + |e.docs|) else {})
  }

  /** The largest the store has been. */
  function Peak(log: seq<Event>): nat {
    if log == [] then 0
    else
      var before := Peak(log[..|log| - 1]);
      if before < |Replay(log)| then |Replay(log)| else before
  }

  lemma {:induction false} WithoutShrinks(docs: seq<Doc>, source: string)
    ensures |Without(docs, source)| <= |docs|
  {
    if docs != [] {
      WithoutShrinks(docs[..|docs| - 1], source);
    }
  }

  lemma {:induction false} IssuedUpToPeak(log: seq<Event>)
    ensures Issued(log) == Span(0, Peak(log))
    ensures |Replay(log)| <= Peak(log)
  {
    if log != [] {
      var init, e := log[..|log| - 1], log[|log| - 1];
      IssuedUpToPeak(init);
      if e.DeleteSource? {
        WithoutShrinks(Replay(init), e.source);
      }
    }
  }

  /** Ids count from the current size, so new ones are unused exactly when the store is as large as it ever was. */
  lemma NewIdsFreshIffAtPeak(log: seq<Event>, docs: seq<Doc>)
    requires docs != []
    ensures (forall i: nat :: |Replay(log)| <= i < |Replay(log)| + |docs| ==> i !in Issued(log))
       <==> |Replay(log)| == Peak(log)
  {
    IssuedUpToPeak(log);
    assert |Replay(log)| < Peak(log) ==> |Replay(log)| in Issued(log);
  }

  /** Adding, deleting and adding again hands out the same id for two different documents. */
  lemma IdReusedAfterDelete(a: Doc, b: Doc, source: string)
    requires a.source == Some(source)
    ensures var log := [Add([a]), DeleteSource(source)];
            Replay(log) == [] && 0 in Issued(log) && 0 in Issued(log + [Add([b])]) && Replay(log + [Add([b])]) == [b]
  {
    var one, two := [Add([a])], [Add([a]), DeleteSource(source)];
    assert one[..0] == [] && two[..1] == one;
    assert Replay(one) == [a] && [a][..0] == [];
    assert Replay(two) == Without([a], source) == [];
    assert (two + [Add([b])])[..2] == two;
    assert 0 in Issued(one);
  }
}
