/**
 * The value-level pieces of `getGifsByIds` (src/api/giphy.ts): removing
 * duplicate ids, splitting ids into cache hits and misses, choosing the
 * endpoint for the misses, reading the fetched records, and putting the
 * combined records back into the order of the requested ids.
 */
module GiphyBatch {
  import opened Wrappers
  import opened Seqs
  import opened Strings
  import opened GiphyTypes
  import opened GiphyMapper
  import opened GiphyCache
  import opened GiphyRequest

  /**
   * `Array.from(new Set(ids))`: every id once, the first occurrence deciding
   * the position, so that the result lists the ids in order of first appearance.
   */
  function Dedup(ids: seq<string>): (r: seq<string>)
    ensures forall x :: x in r <==> x in ids
    ensures NoDuplicates(r)
    ensures forall i, j :: 0 <= i < j < |r| ==> IndexOf(ids, r[i]) < IndexOf(ids, r[j])
  {
    if ids == [] then []
    else
      var x := ids[|ids| - 1];
      var d := Dedup(ids[..|ids| - 1]);
      DedupStep(ids, d);
      if x in d then d else d + [x]
  }

  /** One step of `Dedup`: the last id is kept exactly when it is new. */
  lemma DedupStep(ids: seq<string>, d: seq<string>)
    requires ids != []
    requires forall y :: y in d <==> y in ids[..|ids| - 1]
    requires NoDuplicates(d)
    requires forall i, j :: 0 <= i < j < |d| ==> IndexOf(ids[..|ids| - 1], d[i]) < IndexOf(ids[..|ids| - 1], d[j])
    ensures var x := ids[|ids| - 1];
      var r := if x in d then d else d + [x];
      && (forall y :: y in r <==> y in ids)
      && NoDuplicates(r)
      && (forall i, j :: 0 <= i < j < |r| ==> IndexOf(ids, r[i]) < IndexOf(ids, r[j]))
  {
    var front := ids[..|ids| - 1];
    var x := ids[|ids| - 1];
    assert ids == front + [x];
    forall k | 0 <= k < |d| ensures IndexOf(ids, d[k]) == IndexOf(front, d[k]) {
      assert d[k] in d;
      IndexOfInPrefix(ids, |ids| - 1, d[k]);
    }
    if x !in d {
      DistinctSnoc(d, x);
      assert IndexOf(ids, x) == |ids| - 1;
      var r := d + [x];
      forall i, j | 0 <= i < j < |r| ensures IndexOf(ids, r[i]) < IndexOf(ids, r[j]) {
        assert r[i] == d[i];
        if j < |d| {
          assert r[j] == d[j];
        }
      }
    }
  }

  /** Removing duplicates from a list that has none leaves it as it is. */
  lemma {:induction false} DedupOfDistinct(ids: seq<string>)
    requires NoDuplicates(ids)
    ensures Dedup(ids) == ids
  {
    if ids != [] {
      var front := ids[..|ids| - 1];
      assert NoDuplicates(front) by {
        forall i, j | 0 <= i < j < |front| ensures front[i] != front[j] {
          assert front[i] == ids[i] && front[j] == ids[j];
        }
      }
      DedupOfDistinct(front);
      assert forall k :: 0 <= k < |front| ==> front[k] != ids[|ids| - 1] by {
        forall k | 0 <= k < |front| ensures front[k] != ids[|ids| - 1] {
          assert front[k] == ids[k];
        }
      }
      assert front + [ids[|ids| - 1]] == ids;
    }
  }

  /** The records the cache answers for, in the order of the ids. */
  function Hits(memory: Memory, session: Session, now: int, ids: seq<string>): (r: seq<Gif>)
    ensures forall g :: g in r ==> exists x :: x in ids && Lookup(memory, session, CacheKey(x), now) == Some(g)
  {
    if ids == [] then []
    else
      var front := ids[..|ids| - 1];
      var x := ids[|ids| - 1];
      var rest := Hits(memory, session, now, front);
      assert forall y :: y in front ==> y in ids;
      match Lookup(memory, session, CacheKey(x), now)
      case Some(g) => rest + [g]
      case None => rest
  }

  /** Extending the looked-up prefix of the ids by one appends that id's record or that id. */
  lemma SplitStep(memory: Memory, session: Session, now: int, ids: seq<string>, i: nat)
    requires i < |ids|
    ensures var l, p := Lookup(memory, session, CacheKey(ids[i]), now), ids[..i + 1];
      && Hits(memory, session, now, p) == (if l.Some? then Hits(memory, session, now, ids[..i]) + [l.value] else Hits(memory, session, now, ids[..i]))
      && Misses(memory, session, now, p) == (if l.None? then Misses(memory, session, now, ids[..i]) + [ids[i]] else Misses(memory, session, now, ids[..i]))
  {
    var p := ids[..i + 1];
    assert p[..|p| - 1] == ids[..i] && p[|p| - 1] == ids[i];
  }

  /** The ids the cache has no live record for, in the order of the ids. */
  function Misses(memory: Memory, session: Session, now: int, ids: seq<string>): (r: seq<string>)
    ensures forall x :: x in r <==> x in ids && Lookup(memory, session, CacheKey(x), now).None?
    ensures NoDuplicates(ids) ==> NoDuplicates(r)
    ensures |Hits(memory, session, now, ids)| + |r| == |ids|
  {
    if ids == [] then []
    else
      var front := ids[..|ids| - 1];
      var x := ids[|ids| - 1];
      var rest := Misses(memory, session, now, front);
      assert forall y :: y in front ==> y in ids;
      if NoDuplicates(ids) then
        DistinctFront(ids);
        if Lookup(memory, session, CacheKey(x), now).None? then DistinctSnoc(rest, x); rest + [x] else rest
      else
        if Lookup(memory, session, CacheKey(x), now).None? then rest + [x] else rest
  }

  /** All ids hit exactly when no id misses. */
  lemma AllHitsIffNoMisses(memory: Memory, session: Session, now: int, ids: seq<string>)
    ensures Misses(memory, session, now, ids) == [] <==> forall x :: x in ids ==> Lookup(memory, session, CacheKey(x), now).Some?
    ensures Misses(memory, session, now, ids) == [] ==> |Hits(memory, session, now, ids)| == |ids|
  {
    var m := Misses(memory, session, now, ids);
    if m != [] {
      assert m[0] in m;
    }
  }

  /** The path of the call that fetches the misses: the details endpoint for one id, the batch endpoint otherwise. */
  function MissPath(misses: seq<string>): string {
    if |misses| == 1 then "/" + misses[0] else ""
  }

  /** The parameters of that call: none for one id, the comma-joined ids otherwise. */
  function MissParams(misses: seq<string>): seq<(string, ParamValue)> {
    if |misses| == 1 then [] else [("ids", Str(Join(misses, ",")))]
  }

  /**
   * One miss asks for `/{id}` with no parameters; several ask the batch
   * endpoint once, with an `ids` parameter from which the provider recovers
   * exactly the missing ids when no id holds a comma.
   */
  lemma MissRequest(misses: seq<string>, apiKey: string)
    requires |misses| >= 1
    ensures |misses| == 1 ==> BuildRequest(MissPath(misses), MissParams(misses), apiKey) == BuildRequest("/" + misses[0], [], apiKey)
    ensures |misses| >= 2 ==>
      var q := BuildRequest(MissPath(misses), MissParams(misses), apiKey).query;
      && UrlOf(MissPath(misses)) == BaseUrl
      && Get(q, "ids") == Some(Join(misses, ","))
      && Get(q, "api_key") == Some(apiKey)
      && ((forall k :: 0 <= k < |misses| ==> ',' !in misses[k]) ==> Split(Get(q, "ids").value, ',') == misses)
  {
    if |misses| >= 2 {
      QueryOfSpec(MissParams(misses), apiKey, "ids");
      if forall k :: 0 <= k < |misses| ==> ',' !in misses[k] {
        SplitJoin(misses, ',');
      }
    }
  }

  /** The records a response yields: one from the details endpoint, a list from the batch endpoint; another shape is a TypeError. */
  function FetchedGifs(body: ResponseBody, single: bool): (r: Result<seq<Gif>, Error>)
    ensures r.Ok? && single ==> body.data.Single? && r.value == [MapGiphyGifToGif(body.data.gif)]
    ensures r.Ok? && !single ==> body.data.List? && r.value == MapAll(body.data.gifs)
    ensures r.Err? <==> body.data.Single? != single
    ensures r.Err? ==> r.error == TypeError
  {
    match body.data
    case Single(g) => if single then Ok([MapGiphyGifToGif(g)]) else Err(TypeError)
    case List(gs) => if single then Err(TypeError) else Ok(MapAll(gs))
  }

  /** A record's place in the requested order: the position of its id among the ids, -1 when it is not one of them. */
  function Rank(g: Gif, unique: seq<string>): int {
    IndexOf(unique, g.id)
  }

  predicate SortedByRank(s: seq<Gif>, unique: seq<string>) {
    forall i, j :: 0 <= i < j < |s| ==> Rank(s[i], unique) <= Rank(s[j], unique)
  }

  function IdsOf(s: seq<Gif>): (r: seq<string>)
    ensures |r| == |s| && forall k :: 0 <= k < |s| ==> r[k] == s[k].id
  {
    seq(|s|, k requires 0 <= k < |s| => s[k].id)
  }

  /** Inserts `g` before the first record that ranks no lower, so records of equal rank keep their order. */
  function Insert(g: Gif, s: seq<Gif>, unique: seq<string>): (r: seq<Gif>)
    ensures multiset(r) == multiset(s) + multiset{g}
  {
    if s == [] || Rank(g, unique) <= Rank(s[0], unique) then [g] + s
    else
      assert s == [s[0]] + s[1..];
      [s[0]] + Insert(g, s[1..], unique)
  }

  /**
   * `combined.sort((a, b) => unique.indexOf(a.id) - unique.indexOf(b.id))`, a
   * stable sort, as insertion of each record into the sorted rest: it
   * rearranges the records and neither drops nor adds one.
   */
  function SortByRank(s: seq<Gif>, unique: seq<string>): (r: seq<Gif>)
    ensures multiset(r) == multiset(s)
  {
    if s == [] then []
    else
      assert s == [s[0]] + s[1..];
      Insert(s[0], SortByRank(s[1..], unique), unique)
  }

  /** A rank bound that holds for the inserted record and for every record of the list holds after the insertion. */
  lemma {:induction false} InsertAbove(g: Gif, s: seq<Gif>, unique: seq<string>, lo: int)
    requires lo <= Rank(g, unique)
    requires forall k :: 0 <= k < |s| ==> lo <= Rank(s[k], unique)
    ensures forall k :: 0 <= k < |Insert(g, s, unique)| ==> lo <= Rank(Insert(g, s, unique)[k], unique)
  {
    var ins := Insert(g, s, unique);
    if s != [] && Rank(g, unique) > Rank(s[0], unique) {
      var tail := s[1..];
      assert forall k :: 0 <= k < |tail| ==> tail[k] == s[k + 1];
      InsertAbove(g, tail, unique, lo);
      var rest := Insert(g, tail, unique);
      assert ins == [s[0]] + rest;
      forall k | 0 <= k < |ins| ensures lo <= Rank(ins[k], unique) {
        if k > 0 {
          assert ins[k] == rest[k - 1];
        }
      }
    } else {
      assert ins == [g] + s;
      forall k | 0 <= k < |ins| ensures lo <= Rank(ins[k], unique) {
        if k > 0 {
          assert ins[k] == s[k - 1];
        }
      }
    }
  }

  /** A record ranking no higher than every record of a sorted list can go in front of it. */
  lemma ConsSorted(x: Gif, s: seq<Gif>, unique: seq<string>)
    requires SortedByRank(s, unique)
    requires forall k :: 0 <= k < |s| ==> Rank(x, unique) <= Rank(s[k], unique)
    ensures SortedByRank([x] + s, unique)
  {
    var r := [x] + s;
    forall i, j | 0 <= i < j < |r| ensures Rank(r[i], unique) <= Rank(r[j], unique) {
      assert r[j] == s[j - 1];
      if i > 0 {
        assert r[i] == s[i - 1];
      }
    }
  }

  /** Insertion into a list sorted by rank keeps it sorted. */
  lemma {:induction false} InsertSorted(g: Gif, s: seq<Gif>, unique: seq<string>)
    requires SortedByRank(s, unique)
    ensures SortedByRank(Insert(g, s, unique), unique)
  {
    if s != [] && Rank(g, unique) > Rank(s[0], unique) {
      var tail := s[1..];
      assert forall k :: 0 <= k < |tail| ==> tail[k] == s[k + 1];
      InsertSorted(g, tail, unique);
      InsertAbove(g, tail, unique, Rank(s[0], unique));
      ConsSorted(s[0], Insert(g, tail, unique), unique);
      assert Insert(g, s, unique) == [s[0]] + Insert(g, tail, unique);
    } else {
      assert forall k :: 0 <= k < |s| ==> Rank(s[0], unique) <= Rank(s[k], unique);
      ConsSorted(g, s, unique);
      assert Insert(g, s, unique) == [g] + s;
    }
  }

  /** The sorted records are ordered by the position of their ids among the requested ids. */
  lemma {:induction false} SortByRankSorted(s: seq<Gif>, unique: seq<string>)
    ensures SortedByRank(SortByRank(s, unique), unique)
  {
    if s != [] {
      SortByRankSorted(s[1..], unique);
      InsertSorted(s[0], SortByRank(s[1..], unique), unique);
    }
  }

  /** The records of rank `k`, in their order. */
  function OfRank(s: seq<Gif>, unique: seq<string>, k: int): seq<Gif> {
    if s == [] then []
    else (if Rank(s[0], unique) == k then [s[0]] else []) + OfRank(s[1..], unique, k)
  }

  /** The records of rank `k` in a list with `x` in front. */
  lemma OfRankCons(x: Gif, t: seq<Gif>, unique: seq<string>, k: int)
    ensures OfRank([x] + t, unique, k) == (if Rank(x, unique) == k then [x] else []) + OfRank(t, unique, k)
  {
    assert ([x] + t)[0] == x && ([x] + t)[1..] == t;
  }

  /** One step of `OfRank`. */
  lemma OfRankUnfold(s: seq<Gif>, unique: seq<string>, k: int)
    requires s != []
    ensures OfRank(s, unique, k) == (if Rank(s[0], unique) == k then [s[0]] else []) + OfRank(s[1..], unique, k)
  {
  }

  /** One step of `Insert`. */
  lemma InsertStep(g: Gif, s: seq<Gif>, unique: seq<string>)
    ensures s == [] || Rank(g, unique) <= Rank(s[0], unique) ==> Insert(g, s, unique) == [g] + s
    ensures s != [] && Rank(g, unique) > Rank(s[0], unique) ==> Insert(g, s, unique) == [s[0]] + Insert(g, s[1..], unique)
  {
  }

  /** Insertion puts the record in front of the records of its own rank and moves no other record past one of equal rank. */
  lemma {:induction false} InsertOfRank(g: Gif, s: seq<Gif>, unique: seq<string>, k: int)
    ensures OfRank(Insert(g, s, unique), unique, k) == (if Rank(g, unique) == k then [g] else []) + OfRank(s, unique, k)
  {
    InsertStep(g, s, unique);
    if s == [] || Rank(g, unique) <= Rank(s[0], unique) {
      OfRankCons(g, s, unique, k);
    } else {
      var x, tail := s[0], s[1..];
      var ins := Insert(g, tail, unique);
      InsertOfRank(g, tail, unique, k);
      OfRankCons(x, ins, unique, k);
      OfRankUnfold(s, unique, k);
      assert Rank(x, unique) < Rank(g, unique);
      var hg: seq<Gif> := if Rank(g, unique) == k then [g] else [];
      var hx: seq<Gif> := if Rank(x, unique) == k then [x] else [];
      SwapEmpty(hx, hg, OfRank(tail, unique, k));
    }
  }

  /** The sort is stable: the records of each rank come out in the order they went in. */
  lemma {:induction false} SortStable(s: seq<Gif>, unique: seq<string>, k: int)
    ensures OfRank(SortByRank(s, unique), unique, k) == OfRank(s, unique, k)
  {
    if s != [] {
      SortStable(s[1..], unique, k);
      InsertOfRank(s[0], SortByRank(s[1..], unique), unique, k);
    }
  }

  /** The ids of a concatenation are the concatenated ids. */
  lemma IdsOfConcat(a: seq<Gif>, b: seq<Gif>)
    ensures IdsOf(a + b) == IdsOf(a) + IdsOf(b)
  {
  }

  /** The ids of a list with `x` in front. */
  lemma IdsOfFront(x: Gif, t: seq<Gif>)
    ensures IdsOf([x] + t) == [x.id] + IdsOf(t)
  {
    IdsOfConcat([x], t);
    assert IdsOf([x]) == [x.id];
  }

  /** Keeping the front record and adding `g.id` behind it. */
  lemma IdsBehindFront(s: seq<Gif>, rest: seq<Gif>, g: Gif)
    requires s != [] && multiset(IdsOf(rest)) == multiset(IdsOf(s[1..])) + multiset{g.id}
    ensures multiset(IdsOf([s[0]] + rest)) == multiset(IdsOf(s)) + multiset{g.id}
  {
    IdsOfFront(s[0], rest);
    IdsOfFront(s[0], s[1..]);
    assert [s[0]] + s[1..] == s;
    ConsAdded(s[0].id, IdsOf(rest), IdsOf(s[1..]), g.id);
  }

  /** The ids of the inserted list are the old ids with `g.id` added. */
  lemma {:induction false} InsertIds(g: Gif, s: seq<Gif>, unique: seq<string>)
    ensures multiset(IdsOf(Insert(g, s, unique))) == multiset(IdsOf(s)) + multiset{g.id}
  {
    InsertStep(g, s, unique);
    if s == [] || Rank(g, unique) <= Rank(s[0], unique) {
      IdsOfFront(g, s);
    } else {
      InsertIds(g, s[1..], unique);
      IdsBehindFront(s, Insert(g, s[1..], unique), g);
    }
  }

  /** Sorting rearranges the ids in the same way as the records. */
  lemma {:induction false} SortIds(s: seq<Gif>, unique: seq<string>)
    ensures multiset(IdsOf(SortByRank(s, unique))) == multiset(IdsOf(s))
  {
    if s != [] {
      var tail := s[1..];
      var sorted := SortByRank(tail, unique);
      assert SortByRank(s, unique) == Insert(s[0], sorted, unique);
      SortIds(tail, unique);
      InsertIds(s[0], sorted, unique);
      IdsCons(s);
    }
  }

  lemma IdsCons(s: seq<Gif>)
    requires s != []
    ensures multiset(IdsOf(s)) == multiset(IdsOf(s[1..])) + multiset{s[0].id}
  {
    IdsOfConcat([s[0]], s[1..]);
    assert [s[0]] + s[1..] == s;
    assert IdsOf([s[0]]) == [s[0].id];
  }

  /** Ids drawn once each from the requested ids, ordered by position, are strictly ordered by position. */
  lemma StrictOrder(v: seq<string>, unique: seq<string>)
    requires NoDuplicates(unique) && multiset(v) <= multiset(unique)
    requires forall i, j :: 0 <= i < j < |v| ==> IndexOf(unique, v[i]) <= IndexOf(unique, v[j])
    ensures forall i :: 0 <= i < |v| ==> 0 <= IndexOf(unique, v[i])
    ensures forall i, j :: 0 <= i < j < |v| ==> IndexOf(unique, v[i]) < IndexOf(unique, v[j])
  {
    SubMultisetDistinct(v, unique);
    forall i | 0 <= i < |v| ensures v[i] in unique {
      assert v[i] in multiset(v);
    }
    forall i, j | 0 <= i < j < |v| ensures IndexOf(unique, v[i]) < IndexOf(unique, v[j]) {
      IndexOfInjective(unique, v[i], v[j]);
    }
  }

  /**
   * When each of the records' ids is a distinct requested id (the provider
   * returned some of the missing records, none twice), the sorted records
   * appear strictly in the order of the requested ids.
   */
  lemma OrderFollowsIds(s: seq<Gif>, unique: seq<string>)
    requires NoDuplicates(unique) && multiset(IdsOf(s)) <= multiset(unique)
    ensures var r := SortByRank(s, unique);
      && (forall i :: 0 <= i < |r| ==> 0 <= IndexOf(unique, r[i].id))
      && (forall i, j :: 0 <= i < j < |r| ==> IndexOf(unique, r[i].id) < IndexOf(unique, r[j].id))
  {
    var r := SortByRank(s, unique);
    var v := IdsOf(r);
    SortByRankSorted(s, unique);
    SortIds(s, unique);
    assert forall i, j :: 0 <= i < j < |v| ==> IndexOf(unique, v[i]) <= IndexOf(unique, v[j]) by {
      forall i, j | 0 <= i < j < |v| ensures IndexOf(unique, v[i]) <= IndexOf(unique, v[j]) {
        assert Rank(r[i], unique) <= Rank(r[j], unique);
      }
    }
    StrictOrder(v, unique);
  }

  /** A strictly increasing list of n positions below n is 0, 1, ..., n - 1. */
  lemma {:induction false} StrictPositions(p: seq<int>, n: nat)
    requires |p| == n
    requires forall i :: 0 <= i < n ==> 0 <= p[i] < n
    requires forall i, j :: 0 <= i < j < n ==> p[i] < p[j]
    ensures forall i :: 0 <= i < n ==> p[i] == i
  {
    if n > 0 {
      var front := p[..n - 1];
      LowerBound(p, n - 1);
      assert forall i :: 0 <= i < n - 1 ==> front[i] == p[i];
      assert forall i :: 0 <= i < n - 1 ==> p[i] < p[n - 1];
      StrictPositions(front, n - 1);
    }
  }

  /** In a strictly increasing list of naturals, the k-th is at least k. */
  lemma {:induction false} LowerBound(p: seq<int>, k: nat)
    requires k < |p|
    requires forall i :: 0 <= i < |p| ==> 0 <= p[i]
    requires forall i, j :: 0 <= i < j < |p| ==> p[i] < p[j]
    ensures p[k] >= k
  {
    if k > 0 {
      LowerBound(p, k - 1);
    }
  }

  /**
   * When the records' ids are the requested ids, each once (every id was
   * found), the sorted records' ids are exactly the requested ids, in order.
   */
  lemma CompleteOrder(s: seq<Gif>, unique: seq<string>)
    requires NoDuplicates(unique) && multiset(IdsOf(s)) == multiset(unique)
    ensures IdsOf(SortByRank(s, unique)) == unique
  {
    var r := SortByRank(s, unique);
    var v := IdsOf(r);
    OrderFollowsIds(s, unique);
    SortIds(s, unique);
    forall i, j | 0 <= i < j < |v| ensures IndexOf(unique, v[i]) < IndexOf(unique, v[j]) {
      assert v[i] == r[i].id && v[j] == r[j].id;
    }
    ExactOrder(v, unique);
  }

  /** The requested ids rearranged, listed in strictly increasing position, are the requested ids themselves. */
  lemma ExactOrder(v: seq<string>, unique: seq<string>)
    requires NoDuplicates(unique) && multiset(v) == multiset(unique)
    requires forall i, j :: 0 <= i < j < |v| ==> IndexOf(unique, v[i]) < IndexOf(unique, v[j])
    ensures v == unique
  {
    assert |v| == |unique| by {
      assert |multiset(v)| == |multiset(unique)|;
    }
    var p := seq(|v|, i requires 0 <= i < |v| => IndexOf(unique, v[i]));
    forall i | 0 <= i < |v| ensures 0 <= p[i] < |unique| {
      assert v[i] in multiset(v);
    }
    StrictPositions(p, |unique|);
    forall i | 0 <= i < |v| ensures v[i] == unique[i] {
      assert v[i] in multiset(v);
      assert unique[p[i]] == v[i];
    }
  }

  /** The ids the cache answers for, in the order of the ids. */
  function HitIds(memory: Memory, session: Session, now: int, ids: seq<string>): (r: seq<string>)
    ensures forall x :: x in r <==> x in ids && Lookup(memory, session, CacheKey(x), now).Some?
  {
    if ids == [] then []
    else
      var front := ids[..|ids| - 1];
      var x := ids[|ids| - 1];
      var rest := HitIds(memory, session, now, front);
      assert forall y :: y in front ==> y in ids;
      if Lookup(memory, session, CacheKey(x), now).Some? then rest + [x] else rest
  }

  /** With consistent tiers, each cached record carries the id it was looked up by. */
  lemma {:induction false} HitsCarryTheirIds(memory: Memory, session: Session, now: int, ids: seq<string>)
    requires MemoryConsistent(memory) && SessionConsistent(session)
    ensures IdsOf(Hits(memory, session, now, ids)) == HitIds(memory, session, now, ids)
  {
    if ids != [] {
      var front := ids[..|ids| - 1];
      var x := ids[|ids| - 1];
      HitsCarryTheirIds(memory, session, now, front);
      LookupId(memory, session, x, now);
      var l := Lookup(memory, session, CacheKey(x), now);
      if l.Some? {
        IdsOfConcat(Hits(memory, session, now, front), [l.value]);
      }
    }
  }

  /** Every id is either answered by the cache or left to fetch, never both, never neither. */
  lemma HitsAndMissesPartition(memory: Memory, session: Session, now: int, ids: seq<string>)
    ensures multiset(HitIds(memory, session, now, ids)) + multiset(Misses(memory, session, now, ids)) == multiset(ids)
  {
    var hit := x => Lookup(memory, session, CacheKey(x), now).Some?;
    var miss := x => Lookup(memory, session, CacheKey(x), now).None?;
    HitIdsFilter(memory, session, now, ids, hit);
    MissesFilter(memory, session, now, ids, miss);
    FilterPartition(ids, hit, miss);
  }

  /** The hit ids are the ids filtered by a live lookup. */
  lemma {:induction false} HitIdsFilter(memory: Memory, session: Session, now: int, ids: seq<string>, hit: string -> bool)
    requires forall x :: hit(x) == Lookup(memory, session, CacheKey(x), now).Some?
    ensures HitIds(memory, session, now, ids) == Filter(ids, hit)
  {
    if ids != [] {
      HitIdsFilter(memory, session, now, ids[..|ids| - 1], hit);
      HitIdsStep(memory, session, now, ids);
    }
  }

  /** The missing ids are the ids filtered by a failed lookup. */
  lemma {:induction false} MissesFilter(memory: Memory, session: Session, now: int, ids: seq<string>, miss: string -> bool)
    requires forall x :: miss(x) == Lookup(memory, session, CacheKey(x), now).None?
    ensures Misses(memory, session, now, ids) == Filter(ids, miss)
  {
    if ids != [] {
      MissesFilter(memory, session, now, ids[..|ids| - 1], miss);
      MissesStep(memory, session, now, ids);
    }
  }

  lemma HitIdsStep(memory: Memory, session: Session, now: int, ids: seq<string>)
    requires ids != []
    ensures HitIds(memory, session, now, ids) == HitIds(memory, session, now, ids[..|ids| - 1])
      + if Lookup(memory, session, CacheKey(ids[|ids| - 1]), now).Some? then [ids[|ids| - 1]] else []
  {
  }

  lemma MissesStep(memory: Memory, session: Session, now: int, ids: seq<string>)
    requires ids != []
    ensures Misses(memory, session, now, ids) == Misses(memory, session, now, ids[..|ids| - 1])
      + if Lookup(memory, session, CacheKey(ids[|ids| - 1]), now).Some? then [] else [ids[|ids| - 1]]
  {
  }

  /**
   * `getGifsByIds` returns the records in the order of the requested ids: when
   * the provider answers exactly the missing ids, the result holds one record
   * per distinct requested id, in order of first request.
   */
  lemma BatchInRequestedOrder(memory: Memory, session: Session, now: int, ids: seq<string>, fetched: seq<Gif>)
    requires MemoryConsistent(memory) && SessionConsistent(session)
    requires multiset(IdsOf(fetched)) == multiset(Misses(memory, session, now, Dedup(ids)))
    ensures IdsOf(SortByRank(Hits(memory, session, now, Dedup(ids)) + fetched, Dedup(ids))) == Dedup(ids)
  {
    var unique := Dedup(ids);
    var hits := Hits(memory, session, now, unique);
    HitsCarryTheirIds(memory, session, now, unique);
    HitsAndMissesPartition(memory, session, now, unique);
    IdsOfConcat(hits, fetched);
    CompleteOrder(hits + fetched, unique);
  }

  /**
   * When the provider answers only some of the missing ids, none twice, the
   * result still lists no id twice and follows the order of the requested ids.
   */
  lemma BatchOrderedWhenPartial(memory: Memory, session: Session, now: int, ids: seq<string>, fetched: seq<Gif>)
    requires MemoryConsistent(memory) && SessionConsistent(session)
    requires multiset(IdsOf(fetched)) <= multiset(Misses(memory, session, now, Dedup(ids)))
    ensures var r := SortByRank(Hits(memory, session, now, Dedup(ids)) + fetched, Dedup(ids));
      && (forall i :: 0 <= i < |r| ==> 0 <= IndexOf(Dedup(ids), r[i].id))
      && (forall i, j :: 0 <= i < j < |r| ==> IndexOf(Dedup(ids), r[i].id) < IndexOf(Dedup(ids), r[j].id))
  {
    var unique := Dedup(ids);
    var hits := Hits(memory, session, now, unique);
    HitsCarryTheirIds(memory, session, now, unique);
    HitsAndMissesPartition(memory, session, now, unique);
    IdsOfConcat(hits, fetched);
    OrderFollowsIds(hits + fetched, unique);
  }
}
