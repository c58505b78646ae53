/** The pruned duplicate filter both ingestors keep: ids seen, each with the clock reading
    of the tick that emitted it, against the unbounded emission history it stands for. */
module SeenTable {
  import opened GoTime

  const MIN_SEEN_RETENTION: int := 30 * MINUTE

  type Seen = map<string, Time>

  datatype Tagged<+R> = Tagged(id: string, item: R)

  datatype Emission<+R> = Emission(at: Time, id: string, item: R)

  /** How long `pruneSeen` keeps an id: six windows, but half an hour at least. The product is an
      int64 and may wrap. */
  function Retention(window: int): (r: int)
    ensures r >= MIN_SEEN_RETENTION
    ensures 0 < window && 6 * window <= MAX_INT64 ==> r == Max(6 * window, 30 * MINUTE)
  {
    Max(Wrap64(window * 6), MIN_SEEN_RETENTION)
  }

  /** It is six windows or half an hour exactly when six windows fit an int64. */
  lemma RetentionExactIff(window: int)
    requires 0 < window <= MAX_INT64
    ensures Retention(window) == Max(6 * window, 30 * MINUTE) <==> 6 * window <= MAX_INT64
  {
    assert 6 * window > MAX_INT64 ==> Wrap64(window * 6) <= MAX_INT64 < 6 * window;
  }

  // ---------- one tick ----------

  function Prune(seen: Seen, cutoff: Time): Seen {
    map id | id in seen && !(seen[id] < cutoff) :: seen[id]
  }

  /** Item `i` is emitted: its id is not in the table and is new in its own batch. */
  ghost predicate Novel<R>(items: seq<Tagged<R>>, i: int, seen: Seen)
    requires 0 <= i < |items|
  {
    items[i].id !in seen && forall j :: 0 <= j < i ==> items[j].id != items[i].id
  }

  /** The emitted items of a batch, in order. */
  ghost function Fresh<R>(items: seq<Tagged<R>>, seen: Seen): seq<Tagged<R>> {
    if items == [] then []
    else
      var k := |items| - 1;
      Fresh(items[..k], seen) + (if Novel(items, k, seen) then [items[k]] else [])
  }

  function Stamp<R>(seen: Seen, batch: seq<Tagged<R>>, at: Time): Seen {
    if batch == [] then seen else Stamp(seen, batch[..|batch| - 1], at)[batch[|batch| - 1].id := at]
  }

  function Emit<R>(batch: seq<Tagged<R>>, at: Time): (es: seq<Emission<R>>)
    ensures |es| == |batch|
    ensures forall i :: 0 <= i < |es| ==> es[i] == Emission(at, batch[i].id, batch[i].item)
  {
    seq(|batch|, i requires 0 <= i < |batch| => Emission(at, batch[i].id, batch[i].item))
  }

  lemma NovelMeans<R>(items: seq<Tagged<R>>, k: int, seen: Seen)
    requires 0 <= k < |items|
    ensures Novel(items, k, seen) <==> items[k].id !in seen && !exists t :: t in items[..k] && t.id == items[k].id
  {
    if t :| t in items[..k] && t.id == items[k].id {
      var j :| 0 <= j < k && items[j] == t;
    }
    assert forall j :: 0 <= j < k ==> items[j] in items[..k];
  }

  /** The ids a batch emits are exactly its ids that the table does not hold. */
  lemma {:induction false} FreshIds<R>(items: seq<Tagged<R>>, seen: Seen, id: string)
    ensures (exists t :: t in Fresh(items, seen) && t.id == id)
            <==> id !in seen && exists t :: t in items && t.id == id
    ensures forall t :: t in Fresh(items, seen) ==> t in items
    decreases |items|
  {
    if items != [] {
      var k := |items| - 1;
      FreshIds(items[..k], seen, id);
      FreshIds(items[..k], seen, items[k].id);
      NovelMeans(items, k, seen);
      hide Novel, Fresh;
      FreshEnd(items, seen);
      assert items == items[..k] + [items[k]];
      AppendedID(items[..k], items[k], id);
      AppendedID(Fresh(items[..k], seen), items[k], id);
    }
  }

  lemma FreshEnd<R>(items: seq<Tagged<R>>, seen: Seen)
    requires items != []
    ensures var k := |items| - 1;
      Fresh(items, seen) == if Novel(items, k, seen) then Fresh(items[..k], seen) + [items[k]] else Fresh(items[..k], seen)
  {
    hide Novel;
  }

  lemma AppendedID<R>(items: seq<Tagged<R>>, t: Tagged<R>, id: string)
    ensures (exists u :: u in items + [t] && u.id == id) <==> t.id == id || exists u :: u in items && u.id == id
  {
    assert t in items + [t];
  }

  /** A batch never emits the same id twice. */
  lemma {:induction false} FreshDistinct<R>(items: seq<Tagged<R>>, seen: Seen)
    ensures forall i, j :: 0 <= i < j < |Fresh(items, seen)| ==> Fresh(items, seen)[i].id != Fresh(items, seen)[j].id
    decreases |items|
  {
    if items != [] {
      var k := |items| - 1;
      FreshDistinct(items[..k], seen);
      FreshIds(items[..k], seen, items[k].id);
      assert items == items[..k] + [items[k]];
      var r := Fresh(items[..k], seen);
      if Novel(items, k, seen) {
        forall i | 0 <= i < |r| ensures r[i].id != items[k].id {
          assert r[i] in items[..k];
          var j :| 0 <= j < k && items[..k][j] == r[i];
          assert items[j] == r[i];
        }
      }
    }
  }

  lemma {:induction false} StampKeys<R>(seen: Seen, batch: seq<Tagged<R>>, at: Time, id: string)
    ensures id in Stamp(seen, batch, at) <==> id in seen || exists t :: t in batch && t.id == id
    decreases |batch|
  {
    if batch != [] {
      var k := |batch| - 1;
      StampKeys(seen, batch[..k], at, id);
      assert batch == batch[..k] + [batch[k]];
    }
  }

  /** What the duplicate test in the loop sees after `k` items. */
  lemma StampedSeen<R>(items: seq<Tagged<R>>, k: int, seen: Seen, at: Time)
    requires 0 <= k < |items|
    ensures items[k].id in Stamp(seen, Fresh(items[..k], seen), at) <==> !Novel(items, k, seen)
  {
    var id := items[k].id;
    var r := Fresh(items[..k], seen);
    FreshIds(items[..k], seen, id);
    StampKeys(seen, r, at, id);
    if j :| 0 <= j < k && items[j].id == id {
      assert items[..k][j] in items[..k];
    }
    if t :| t in items[..k] && t.id == id {
      var j :| 0 <= j < k && items[j] == t;
    }
  }

  lemma StampSnoc<R>(seen: Seen, batch: seq<Tagged<R>>, t: Tagged<R>, at: Time)
    ensures Stamp(seen, batch + [t], at) == Stamp(seen, batch, at)[t.id := at]
  {
    assert (batch + [t])[..|batch|] == batch;
  }

  lemma FreshSnoc<R>(items: seq<Tagged<R>>, k: int, seen: Seen)
    requires 0 <= k < |items|
    ensures Fresh(items[..k + 1], seen)
      == if Novel(items, k, seen) then Fresh(items[..k], seen) + [items[k]] else Fresh(items[..k], seen)
  {
    var upto := items[..k + 1];
    assert upto[..k] == items[..k] && |upto| - 1 == k && upto[k] == items[k];
    assert Novel(upto, k, seen) == Novel(items, k, seen) by {
      assert forall j :: 0 <= j < k ==> upto[j] == items[j];
    }
  }

  /** One turn of the loop over a batch. */
  lemma FreshStep<R>(items: seq<Tagged<R>>, k: int, seen: Seen, at: Time)
    requires 0 <= k < |items|
    ensures var before, after := Fresh(items[..k], seen), Fresh(items[..k + 1], seen);
      if items[k].id in Stamp(seen, before, at) then after == before
      else after == before + [items[k]] && Stamp(seen, after, at) == Stamp(seen, before, at)[items[k].id := at]
  {
    StampedSeen(items, k, seen, at);
    FreshSnoc(items, k, seen);
    StampSnoc(seen, Fresh(items[..k], seen), items[k], at);
  }

  lemma FreshOfNothing<R>(seen: Seen, at: Time)
    ensures Fresh<R>([], seen) == [] && Stamp<R>(seen, [], at) == seen
  {
  }

  lemma FreshAppend<R>(items: seq<Tagged<R>>, t: Tagged<R>, seen: Seen, at: Time)
    ensures var before, after := Fresh(items, seen), Fresh(items + [t], seen);
      if t.id in Stamp(seen, before, at) then after == before
      else after == before + [t] && Stamp(seen, after, at) == Stamp(seen, before, at)[t.id := at]
  {
    hide Fresh, Stamp;
    var all := items + [t];
    assert all[..|items|] == items && all[..|items| + 1] == all;
    FreshStep(all, |items|, seen, at);
  }

  // ---------- the history behind the table ----------

  function LastEmission<R>(h: seq<Emission<R>>): Seen {
    if h == [] then map[]
    else LastEmission(h[..|h| - 1])[h[|h| - 1].id := h[|h| - 1].at]
  }

  /** The ids whose latest emission is not before `cutoff`. */
  function Recent<R>(h: seq<Emission<R>>, cutoff: Time): Seen {
    Prune(LastEmission(h), cutoff)
  }

  lemma NothingRecent<R>(cutoff: Time)
    ensures Recent<R>([], cutoff) == map[]
  {
  }

  ghost predicate Chronological<R>(h: seq<Emission<R>>) {
    forall i, j :: 0 <= i < j < |h| ==> h[i].at <= h[j].at
  }

  ghost predicate EmittedSince<R>(h: seq<Emission<R>>, id: string, cutoff: Time) {
    exists i :: 0 <= i < |h| && h[i].id == id && h[i].at >= cutoff
  }

  /** The table decides what the whole history would decide. */
  lemma {:induction false} RecentDecides<R>(h: seq<Emission<R>>, id: string, cutoff: Time)
    requires Chronological(h)
    ensures id in Recent(h, cutoff) <==> EmittedSince(h, id, cutoff)
    decreases |h|
  {
    if h != [] {
      var k := |h| - 1;
      RecentDecides(h[..k], id, cutoff);
      if h[k].id == id {
        assert EmittedSince(h, id, cutoff) <==> h[k].at >= cutoff by {
          if h[k].at >= cutoff { assert h[k].id == id; }
        }
      } else {
        assert id in Recent(h, cutoff) <==> id in Recent(h[..k], cutoff);
        if EmittedSince(h, id, cutoff) {
          var i :| 0 <= i < |h| && h[i].id == id && h[i].at >= cutoff;
          assert h[..k][i] == h[i];
        }
        if EmittedSince(h[..k], id, cutoff) {
          var i :| 0 <= i < k && h[..k][i].id == id && h[..k][i].at >= cutoff;
          assert h[i].id == id;
        }
      }
    }
  }

  lemma LastEmissionSnoc<R>(h: seq<Emission<R>>, e: Emission<R>)
    ensures LastEmission(h + [e]) == LastEmission(h)[e.id := e.at]
  {
    assert (h + [e])[..|h|] == h;
  }

  lemma {:induction false} LastEmissionConcat<R>(h: seq<Emission<R>>, batch: seq<Tagged<R>>, at: Time)
    ensures LastEmission(h + Emit(batch, at)) == Stamp(LastEmission(h), batch, at)
    decreases |batch|
  {
    if batch == [] {
      assert h + Emit(batch, at) == h;
    } else {
      var k := |batch| - 1;
      var init, t := batch[..k], batch[k];
      calc {
        LastEmission(h + Emit(batch, at));
        { assert h + Emit(batch, at) == h + Emit(init, at) + [Emission(at, t.id, t.item)]; }
        LastEmission(h + Emit(init, at) + [Emission(at, t.id, t.item)]);
        { LastEmissionSnoc(h + Emit(init, at), Emission(at, t.id, t.item)); }
        LastEmission(h + Emit(init, at))[t.id := at];
        { LastEmissionConcat(h, init, at); }
        Stamp(LastEmission(h), init, at)[t.id := at];
        { StampSnoc(LastEmission(h), init, t, at); assert batch == init + [t]; }
        Stamp(LastEmission(h), batch, at);
      }
    }
  }

  lemma {:induction false} PruneStamp<R>(seen: Seen, batch: seq<Tagged<R>>, at: Time, cutoff: Time)
    requires cutoff <= at
    ensures Prune(Stamp(seen, batch, at), cutoff) == Stamp(Prune(seen, cutoff), batch, at)
    decreases |batch|
  {
    if batch != [] {
      PruneStamp(seen, batch[..|batch| - 1], at, cutoff);
    }
  }

  /** Pruning to a later cutoff and stamping a batch keeps table and history in step. */
  lemma TableTracksHistory<R>(h: seq<Emission<R>>, before: Time, cutoff: Time, batch: seq<Tagged<R>>, at: Time)
    requires before <= cutoff <= at
    ensures Prune(Recent(h, before), cutoff) == Recent(h, cutoff)
    ensures Stamp(Recent(h, cutoff), batch, at) == Recent(h + Emit(batch, at), cutoff)
  {
    LastEmissionConcat(h, batch, at);
    PruneStamp(LastEmission(h), batch, at, cutoff);
  }

  // ---------- how often an id was emitted ----------

  ghost function Count<R>(h: seq<Emission<R>>, id: string): nat {
    if h == [] then 0 else Count(h[..|h| - 1], id) + (if h[|h| - 1].id == id then 1 else 0)
  }

  ghost predicate HasID<R>(h: seq<Emission<R>>, id: string) {
    exists i :: 0 <= i < |h| && h[i].id == id
  }

  ghost predicate UniqueIDs<R>(h: seq<Emission<R>>) {
    forall i, j :: 0 <= i < j < |h| ==> h[i].id != h[j].id
  }

  lemma HasIDConcat<R>(h: seq<Emission<R>>, batch: seq<Tagged<R>>, at: Time, id: string)
    ensures HasID(h + Emit(batch, at), id) <==> HasID(h, id) || exists t :: t in batch && t.id == id
  {
    var g := h + Emit(batch, at);
    if i :| 0 <= i < |g| && g[i].id == id {
      if i >= |h| { assert batch[i - |h|] in batch; }
    }
    if i :| 0 <= i < |h| && h[i].id == id { assert g[i].id == id; }
    if t :| t in batch && t.id == id {
      var i :| 0 <= i < |batch| && batch[i] == t;
      assert g[|h| + i].id == id;
    }
  }

  lemma {:induction false} CountOfUnique<R>(h: seq<Emission<R>>, id: string)
    requires UniqueIDs(h)
    ensures Count(h, id) == if HasID(h, id) then 1 else 0
    decreases |h|
  {
    if h != [] {
      var k := |h| - 1;
      CountOfUnique(h[..k], id);
      if HasID(h, id) && h[k].id != id {
        var i :| 0 <= i < |h| && h[i].id == id;
        assert h[..k][i].id == id;
      }
      if HasID(h[..k], id) {
        var i :| 0 <= i < k && h[..k][i].id == id;
        assert h[i].id == id;
      }
      if h[k].id == id { assert HasID(h, id); }
    }
  }
}
