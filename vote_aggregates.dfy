/** The vote table's aggregation: a pass over the votes that skips those
    without a video, keeps one record per `videoId` in a map (counting up
    the record when the id is already there, inserting a record with count 1
    otherwise), and then sorts the records in map insertion order by count,
    largest first. */
module VoteAggregates {
  import opened Common
  import StableSort

  datatype VideoRef = VideoRef(id: int, name: string, streamer: string, urlSlug: string)

  datatype Vote = Vote(id: int, userId: string, videoId: int, video: Option<VideoRef>)

  datatype Aggregate = Aggregate(videoId: int, videoName: string, streamer: string, voteCount: nat)

  /** The `Map<number, VoteAggregate>`: its keys in insertion order, and the
      record stored under each. */
  datatype Acc = Acc(order: seq<int>, table: map<int, Aggregate>)

  /** A vote that reaches the map: `vote.video` is present. */
  predicate CountsFor(v: Vote, id: int) {
    v.video.Some? && v.videoId == id
  }

  predicate Appears(votes: seq<Vote>, id: int) {
    exists i :: 0 <= i < |votes| && CountsFor(votes[i], id)
  }

  /** The number of counted votes for `id`. */
  function CountVotes(votes: seq<Vote>, id: int): nat {
    if votes == [] then 0
    else CountVotes(votes[..|votes| - 1], id) + (if CountsFor(votes[|votes| - 1], id) then 1 else 0)
  }

  /** The number of votes that have a video. */
  function CountedTotal(votes: seq<Vote>): nat {
    if votes == [] then 0
    else CountedTotal(votes[..|votes| - 1]) + (if votes[|votes| - 1].video.Some? then 1 else 0)
  }

  /** The index of the first counted vote for `id`, or `|votes|` when there
      is none. */
  function FirstIndex(votes: seq<Vote>, id: int): (r: nat)
    ensures r <= |votes|
    ensures r < |votes| ==> CountsFor(votes[r], id)
    ensures forall j :: 0 <= j < r ==> !CountsFor(votes[j], id)
  {
    if votes == [] then 0
    else if CountsFor(votes[0], id) then 0
    else 1 + FirstIndex(votes[1..], id)
  }

  /** The map's invariant: keys are listed once each in `order`, the listed
      keys are exactly those stored, each record carries its own key, and no
      stored count is zero. */
  ghost predicate Wf(acc: Acc) {
    && (forall i, j :: 0 <= i < j < |acc.order| ==> acc.order[i] != acc.order[j])
    && (forall i :: 0 <= i < |acc.order| ==> acc.order[i] in acc.table)
    && (forall k :: k in acc.table ==> k in acc.order)
    && (forall k :: k in acc.table ==> acc.table[k].videoId == k && acc.table[k].voteCount >= 1)
  }

  /** One iteration of the `forEach` body. */
  function Step(acc: Acc, v: Vote): (r: Acc)
    requires Wf(acc)
    ensures Wf(r)
  {
    if v.video.None? then acc
    else if v.videoId in acc.table then
      var a := acc.table[v.videoId];
      Acc(acc.order, acc.table[v.videoId := a.(voteCount := a.voteCount + 1)])
    else
      Acc(acc.order + [v.videoId],
          acc.table[v.videoId := Aggregate(v.videoId, v.video.value.name, v.video.value.streamer, 1)])
  }

  /** The map after the `forEach` over `votes`. */
  function Fold(votes: seq<Vote>): (r: Acc)
    ensures Wf(r)
  {
    if votes == [] then Acc([], map[]) else Step(Fold(votes[..|votes| - 1]), votes[|votes| - 1])
  }

  /** `Array.from(aggregateMap.values())`: the records in insertion order. */
  function Values(order: seq<int>, table: map<int, Aggregate>): (r: seq<Aggregate>)
    requires forall i :: 0 <= i < |order| ==> order[i] in table
    ensures |r| == |order|
  {
    if order == [] then [] else Values(order[..|order| - 1], table) + [table[order[|order| - 1]]]
  }

  /** The comparator `b.voteCount - a.voteCount` as a sort key. */
  function ByCountDesc(a: Aggregate): int { -(a.voteCount as int) }

  function VideoIdOf(a: Aggregate): int { a.videoId }

  /** The table's rows. */
  function Aggregates(votes: seq<Vote>): (r: seq<Aggregate>)
    ensures |r| == |Fold(votes).order|
    ensures forall i, j :: 0 <= i < j < |r| ==> r[i].voteCount >= r[j].voteCount
  {
    var acc := Fold(votes);
    StableSort.SortSpec(Values(acc.order, acc.table), ByCountDesc);
    StableSort.Sort(Values(acc.order, acc.table), ByCountDesc)
  }

  /** The memoised computation, imperatively: a map filled in a loop, then
      its values sorted. */
  method ComputeAggregates(votes: seq<Vote>) returns (r: seq<Aggregate>)
    ensures r == Aggregates(votes)
    ensures forall i, j :: 0 <= i < j < |r| ==> r[i].voteCount >= r[j].voteCount
  {
    var order: seq<int> := [];
    var table: map<int, Aggregate> := map[];
    var i := 0;
    while i < |votes|
      invariant 0 <= i <= |votes|
      invariant Acc(order, table) == Fold(votes[..i])
    {
      assert votes[..i + 1][..i] == votes[..i];
      var v := votes[i];
      if v.video.Some? {
        if v.videoId in table {
          var existing := table[v.videoId];
          table := table[v.videoId := existing.(voteCount := existing.voteCount + 1)];
        } else {
          order := order + [v.videoId];
          table := table[v.videoId := Aggregate(v.videoId, v.video.value.name, v.video.value.streamer, 1)];
        }
      }
      i := i + 1;
    }
    assert votes[..i] == votes;
    r := StableSort.Sort(Values(order, table), ByCountDesc);
    StableSort.SortSpec(Values(order, table), ByCountDesc);
  }

  /** Appending a vote: what was already counted keeps its first index, and
      an id counted for the first time gets the new position. */
  lemma {:induction false} FirstIndexSnoc(p: seq<Vote>, v: Vote, id: int)
    ensures Appears(p, id) ==> FirstIndex(p + [v], id) == FirstIndex(p, id)
    ensures !Appears(p, id) && CountsFor(v, id) ==> FirstIndex(p + [v], id) == |p|
    ensures !Appears(p, id) ==> !CountsFor(v, id) ==> !Appears(p + [v], id)
  {
    if p != [] {
      assert (p + [v])[1..] == p[1..] + [v];
      FirstIndexSnoc(p[1..], v, id);
      if !CountsFor(p[0], id) {
        if Appears(p, id) {
          var j :| 0 <= j < |p| && CountsFor(p[j], id);
          assert p[1..][j - 1] == p[j];
        }
        if !Appears(p, id) {
          forall j | 0 <= j < |p[1..]|
            ensures !CountsFor(p[1..][j], id)
          {
            assert p[1..][j] == p[j + 1];
          }
        }
      }
    }
    if !Appears(p, id) && !CountsFor(v, id) {
      forall j | 0 <= j < |p + [v]|
        ensures !CountsFor((p + [v])[j], id)
      {
        if j < |p| { assert (p + [v])[j] == p[j]; }
      }
    }
  }

  lemma AppearsSnoc(p: seq<Vote>, v: Vote, id: int)
    ensures Appears(p + [v], id) <==> Appears(p, id) || CountsFor(v, id)
  {
    var votes := p + [v];
    if Appears(p, id) {
      var j :| 0 <= j < |p| && CountsFor(p[j], id);
      assert votes[j] == p[j];
    }
    if Appears(votes, id) {
      var j :| 0 <= j < |votes| && CountsFor(votes[j], id);
      if j < |p| { assert votes[j] == p[j]; }
    }
    if CountsFor(v, id) { assert votes[|p|] == v; }
  }

  /** The map holds a record exactly for the ids that have a counted vote. */
  lemma {:induction false} FoldKeys(votes: seq<Vote>)
    ensures forall k :: k in Fold(votes).table <==> Appears(votes, k)
  {
    if votes != [] {
      var p := votes[..|votes| - 1];
      var v := votes[|votes| - 1];
      assert votes == p + [v];
      FoldKeys(p);
      forall k
        ensures k in Fold(votes).table <==> Appears(votes, k)
      {
        AppearsSnoc(p, v, k);
      }
    }
  }

  /** Each record's count is the number of counted votes for its id. */
  lemma {:induction false} FoldCounts(votes: seq<Vote>)
    ensures forall k :: k in Fold(votes).table ==> Fold(votes).table[k].voteCount == CountVotes(votes, k)
  {
    if votes != [] {
      var p := votes[..|votes| - 1];
      var v := votes[|votes| - 1];
      assert votes == p + [v];
      FoldCounts(p);
      FoldKeys(p);
      var before := Fold(p);
      var after := Fold(votes);
      forall k | k in after.table
        ensures after.table[k].voteCount == CountVotes(votes, k)
      {
        if k !in before.table {
          CountVotesPositive(p, k);
        }
      }
    }
  }

  /** An id has a non-zero count exactly when some vote for it is counted. */
  lemma {:induction false} CountVotesPositive(votes: seq<Vote>, id: int)
    ensures CountVotes(votes, id) >= 1 <==> Appears(votes, id)
  {
    if votes != [] {
      var p := votes[..|votes| - 1];
      var v := votes[|votes| - 1];
      assert votes == p + [v];
      CountVotesPositive(p, id);
      AppearsSnoc(p, v, id);
    }
  }

  /** Each record's name and streamer come from the first counted vote for
      its id. */
  lemma {:induction false} FoldFirst(votes: seq<Vote>)
    ensures forall k :: k in Fold(votes).table ==>
              FirstIndex(votes, k) < |votes|
              && Fold(votes).table[k].videoName == votes[FirstIndex(votes, k)].video.value.name
              && Fold(votes).table[k].streamer == votes[FirstIndex(votes, k)].video.value.streamer
  {
    if votes != [] {
      var p := votes[..|votes| - 1];
      var v := votes[|votes| - 1];
      assert votes == p + [v];
      FoldFirst(p);
      FoldKeys(p);
      var before := Fold(p);
      var after := Fold(votes);
      forall k | k in after.table
        ensures FirstIndex(votes, k) < |votes|
        ensures after.table[k].videoName == votes[FirstIndex(votes, k)].video.value.name
        ensures after.table[k].streamer == votes[FirstIndex(votes, k)].video.value.streamer
      {
        FirstIndexSnoc(p, v, k);
        if k in before.table {
          assert votes[FirstIndex(p, k)] == p[FirstIndex(p, k)];
        } else {
          assert votes[|p|] == v;
        }
      }
    }
  }

  /** The keys are listed in order of their first counted vote. */
  lemma {:induction false} FoldOrder(votes: seq<Vote>)
    ensures forall i, j :: 0 <= i < j < |Fold(votes).order| ==>
              FirstIndex(votes, Fold(votes).order[i]) < FirstIndex(votes, Fold(votes).order[j])
  {
    if votes != [] {
      var p := votes[..|votes| - 1];
      var v := votes[|votes| - 1];
      assert votes == p + [v];
      FoldOrder(p);
      FoldKeys(p);
      var before := Fold(p);
      var after := Fold(votes);
      forall i, j | 0 <= i < j < |after.order|
        ensures FirstIndex(votes, after.order[i]) < FirstIndex(votes, after.order[j])
      {
        var a, b := after.order[i], after.order[j];
        assert before.order[i] == a;
        assert a in before.table;
        FirstIndexSnoc(p, v, a);
        FirstIndexSnoc(p, v, b);
        if j < |before.order| {
          assert before.order[j] == b;
          assert b in before.table;
        } else {
          assert b !in before.table;
        }
      }
    }
  }

  /** The sum of the counts of a list of records. */
  function Total(s: seq<Aggregate>): nat {
    if s == [] then 0 else s[0].voteCount + Total(s[1..])
  }

  lemma {:induction false} TotalAppend(a: seq<Aggregate>, b: seq<Aggregate>)
    ensures Total(a + b) == Total(a) + Total(b)
  {
    if a == [] {
      assert a + b == b;
    } else {
      assert (a + b)[1..] == a[1..] + b;
      TotalAppend(a[1..], b);
    }
  }

  lemma {:induction false} TotalInsert(x: Aggregate, s: seq<Aggregate>)
    ensures Total(StableSort.Insert(x, s, ByCountDesc)) == x.voteCount + Total(s)
  {
    if s != [] && ByCountDesc(x) > ByCountDesc(s[0]) {
      TotalInsert(x, s[1..]);
    }
  }

  /** Sorting does not change the total. */
  lemma {:induction false} TotalSort(s: seq<Aggregate>)
    ensures Total(StableSort.Sort(s, ByCountDesc)) == Total(s)
  {
    if s != [] {
      TotalSort(s[1..]);
      TotalInsert(s[0], StableSort.Sort(s[1..], ByCountDesc));
    }
  }

  /** Counting up one listed key adds one to the total. */
  lemma {:induction false} TotalBump(order: seq<int>, table: map<int, Aggregate>, id: int)
    requires forall i :: 0 <= i < |order| ==> order[i] in table
    requires forall i, j :: 0 <= i < j < |order| ==> order[i] != order[j]
    requires id in table
    ensures var a := table[id];
            var t2 := table[id := a.(voteCount := a.voteCount + 1)];
            Total(Values(order, t2)) == Total(Values(order, table)) + (if id in order then 1 else 0)
  {
    var a := table[id];
    var t2 := table[id := a.(voteCount := a.voteCount + 1)];
    if order != [] {
      var p := order[..|order| - 1];
      var last := order[|order| - 1];
      TotalBump(p, table, id);
      TotalAppend(Values(p, t2), [t2[last]]);
      TotalAppend(Values(p, table), [table[last]]);
      if last == id {
        assert id !in p;
      } else {
        assert id in order ==> id in p by {
          if id in order {
            var j :| 0 <= j < |order| && order[j] == id;
            assert p[j] == id;
          }
        }
      }
    }
  }

  /** Values of a table extended by a key that is not listed yet. */
  lemma {:induction false} ValuesFrame(order: seq<int>, table: map<int, Aggregate>, id: int, a: Aggregate)
    requires forall i :: 0 <= i < |order| ==> order[i] in table
    requires id !in order
    ensures Values(order, table[id := a]) == Values(order, table)
  {
    if order != [] {
      ValuesFrame(order[..|order| - 1], table, id, a);
    }
  }

  /** `Values` lists the record of each key, position by position. */
  lemma {:induction false} ValuesAt(order: seq<int>, table: map<int, Aggregate>)
    requires forall i :: 0 <= i < |order| ==> order[i] in table
    ensures forall i :: 0 <= i < |order| ==> Values(order, table)[i] == table[order[i]]
  {
    if order != [] {
      ValuesAt(order[..|order| - 1], table);
    }
  }

  /** The counts add up to the number of votes that have a video. */
  lemma {:induction false} FoldTotal(votes: seq<Vote>)
    ensures Total(Values(Fold(votes).order, Fold(votes).table)) == CountedTotal(votes)
  {
    if votes != [] {
      var p := votes[..|votes| - 1];
      var v := votes[|votes| - 1];
      FoldTotal(p);
      StepTotal(Fold(p), v);
    }
  }

  /** One step adds one to the total exactly when the vote is counted. */
  lemma StepTotal(acc: Acc, v: Vote)
    requires Wf(acc)
    ensures Total(Values(Step(acc, v).order, Step(acc, v).table))
            == Total(Values(acc.order, acc.table)) + (if v.video.Some? then 1 else 0)
  {
    if v.video.Some? {
      if v.videoId in acc.table {
        TotalBump(acc.order, acc.table, v.videoId);
      } else {
        TotalNewKey(acc.order, acc.table, v.videoId,
                    Aggregate(v.videoId, v.video.value.name, v.video.value.streamer, 1));
      }
    }
  }

  /** Listing a new key adds its record's count to the total. */
  lemma TotalNewKey(order: seq<int>, table: map<int, Aggregate>, id: int, a: Aggregate)
    requires forall i :: 0 <= i < |order| ==> order[i] in table
    requires id !in order
    ensures Total(Values(order + [id], table[id := a])) == Total(Values(order, table)) + a.voteCount
  {
    var t2 := table[id := a];
    var o2 := order + [id];
    forall i | 0 <= i < |order|
      ensures order[i] in t2
    {
    }
    forall i | 0 <= i < |o2|
      ensures o2[i] in t2
    {
      if i < |order| {
        assert o2[i] == order[i];
      }
    }
    ValuesFrame(order, table, id, a);
    assert o2[..|o2| - 1] == order;
    var before := Values(order, t2);
    assert Values(o2, t2) == before + [a];
    TotalAppend(before, [a]);
  }

  /** Rows of the table are exactly the records of the map. */
  lemma AggregatesAreRecords(votes: seq<Vote>)
    ensures var acc := Fold(votes);
            var r := Aggregates(votes);
            && (forall i :: 0 <= i < |r| ==> r[i].videoId in acc.table && acc.table[r[i].videoId] == r[i])
            && (forall k :: k in acc.table ==> exists i :: 0 <= i < |r| && r[i].videoId == k)
  {
    var acc := Fold(votes);
    var vals := Values(acc.order, acc.table);
    var r := Aggregates(votes);
    ValuesAt(acc.order, acc.table);
    StableSort.SortSpec(vals, ByCountDesc);
    forall i | 0 <= i < |r|
      ensures r[i].videoId in acc.table && acc.table[r[i].videoId] == r[i]
    {
      assert r[i] in multiset(vals);
      var j :| 0 <= j < |vals| && vals[j] == r[i];
      assert acc.order[j] in acc.table;
    }
    forall k | k in acc.table
      ensures exists i :: 0 <= i < |r| && r[i].videoId == k
    {
      var j :| 0 <= j < |acc.order| && acc.order[j] == k;
      assert vals[j] in multiset(r);
      var i :| 0 <= i < |r| && r[i] == vals[j];
    }
  }

  /** One row per video id with a counted vote and no other; each row's count
      is the number of its counted votes, at least one, and its name and
      streamer come from the first of them. */
  lemma AggregatesRows(votes: seq<Vote>)
    ensures var r := Aggregates(votes);
            && (forall i, j :: 0 <= i < j < |r| ==> r[i].videoId != r[j].videoId)
            && (forall id :: Appears(votes, id) <==> exists i :: 0 <= i < |r| && r[i].videoId == id)
            && (forall i :: 0 <= i < |r| ==>
                  r[i].voteCount == CountVotes(votes, r[i].videoId) && r[i].voteCount >= 1)
            && (forall i :: 0 <= i < |r| ==>
                  FirstIndex(votes, r[i].videoId) < |votes|
                  && r[i].videoName == votes[FirstIndex(votes, r[i].videoId)].video.value.name
                  && r[i].streamer == votes[FirstIndex(votes, r[i].videoId)].video.value.streamer)
  {
    var acc := Fold(votes);
    var vals := Values(acc.order, acc.table);
    FoldKeys(votes);
    FoldCounts(votes);
    FoldFirst(votes);
    AggregatesAreRecords(votes);
    ValuesAt(acc.order, acc.table);
    assert StableSort.DistinctBy(vals, VideoIdOf);
    StableSort.SortDistinctBy(vals, ByCountDesc, VideoIdOf);
    var r := Aggregates(votes);
    forall id
      ensures Appears(votes, id) <==> exists i :: 0 <= i < |r| && r[i].videoId == id
    {
      if exists i :: 0 <= i < |r| && r[i].videoId == id {
        var i :| 0 <= i < |r| && r[i].videoId == id;
        assert id in acc.table;
        assert Appears(votes, id);
      }
      if Appears(votes, id) {
        assert id in acc.table;
        var i :| 0 <= i < |r| && r[i].videoId == id;
      }
    }
  }

  /** Sorted by count, largest first, with rows of equal count in order of
      their first vote; the counts add up to the number of votes that have
      a video. */
  lemma AggregatesOrder(votes: seq<Vote>)
    ensures var r := Aggregates(votes);
            && (forall i, j :: 0 <= i < j < |r| ==> r[i].voteCount >= r[j].voteCount)
            && (forall i, j :: 0 <= i < j < |r| && r[i].voteCount == r[j].voteCount ==>
                  FirstIndex(votes, r[i].videoId) < FirstIndex(votes, r[j].videoId))
            && Total(r) == CountedTotal(votes)
  {
    var acc := Fold(votes);
    var vals := Values(acc.order, acc.table);
    FoldOrder(votes);
    FoldTotal(votes);
    ValuesAt(acc.order, acc.table);
    StableSort.SortSpec(vals, ByCountDesc);
    TotalSort(vals);
    var rank := FirstSeen(votes);
    assert StableSort.TiesRanked(vals, ByCountDesc, rank);
    StableSort.SortKeepsTies(vals, ByCountDesc, rank);
  }

  /** The position of a record's first vote, as a ranking of records. */
  function FirstSeen(votes: seq<Vote>): Aggregate -> int {
    (a: Aggregate) => FirstIndex(votes, a.videoId)
  }
}
