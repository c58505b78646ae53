/** Listing and retention of the object store, in terms of the objects it holds. */
module StoreRetention {
  import opened GoTime
  import opened Text
  import opened Ordering
  import opened FileTree
  import opened StorePaths
  import opened ObjectStore
  import opened StoreRefinement

  /** The listing entry of an object whose key starts with the prefix. */
  predicate Shown(objs: Objects, prefix: string, i: Info) {
    i.key in objs && HasPrefix(i.key, prefix) && i.createdAt == objs[i.key].createdAt
  }

  // ---------- listing ----------

  lemma KeyOfData(root: Path, k: string)
    requires RootOk(root) && GoodKey(k)
    ensures KeyOf(root, Data(root, k)) == k
  {
    DataIs(root, k);
    JoinSplit(k, '/');
    hide GoodKey, Data, Split, Join;
    assert (root + Split(k, '/'))[|root|..] == Split(k, '/');
  }

  lemma ObjectIsListed(c: Codec, root: Path, t: Tree, k: string, e: Entry, prefix: string)
    requires RootOk(root) && GoodKey(k) && Holds(c, root, t, k, e) && HasPrefix(k, prefix)
    ensures Selected(c, root, t, prefix, Data(root, k), Info(k, e.createdAt))
  {
    KeyOfData(root, k);
    ReadStored(c, root, t, k, e);
    NameIsNoSidecar(root, k);
    RootAboveData(root, k);
    hide Data, Side, GoodKey, Above, KeyOf, ReadMetadata, HasSuffix, HasPrefix;
  }

  lemma ListedIsObject(c: Codec, root: Path, t: Tree, objs: Objects, prefix: string, p: Path, i: Info)
    requires RootOk(root) && AllGood(objs) && AllHeld(c, root, t, objs) && AllOwned(root, t, objs)
    requires Selected(c, root, t, prefix, p, i)
    ensures Shown(objs, prefix, i)
  {
    hide Data, Side, GoodKey, Above, KeyOf, ReadMetadata, HasSuffix, HasPrefix, Holds;
    assert Owned(root, objs, p);
    var k :| k in objs && (p == Data(root, k) || p == Side(root, k));
    NameIsNoSidecar(root, k);
    assert p == Data(root, k);
    KeyOfData(root, k);
    ReadStored(c, root, t, k, objs[k]);
  }

  /** A listing shows exactly the objects under the prefix, each once, in key order. */
  lemma ListRefines(c: Codec, root: Path, keys: iset<string>, t: Tree, objs: Objects, prefix: string, infos: seq<Info>)
    requires Represents(c, root, keys, t, objs) && IsListing(c, root, t, prefix, infos)
    ensures StrictlySorted(infos, InfoKey)
    ensures forall i :: i in infos <==> Shown(objs, prefix, i)
  {
    hide Selected, StrictlySorted, Holds, Family, TreeOk, AllOwned, AllOnTheWay, NoFileAbove, GoodKey;
    FamilyIsGood(keys, objs);
    forall i ensures i in infos <==> Shown(objs, prefix, i) {
      if i in infos {
        var p :| Selected(c, root, t, prefix, p, i);
        ListedIsObject(c, root, t, objs, prefix, p, i);
      }
      if Shown(objs, prefix, i) {
        ObjectIsListed(c, root, t, i.key, objs[i.key], prefix);
        assert Selected(c, root, t, prefix, Data(root, i.key), i);
      }
    }
  }

  /** A store that represents objects can always be listed. */
  lemma ListSucceeds(c: Codec, root: Path, keys: iset<string>, t: Tree, objs: Objects)
    requires Represents(c, root, keys, t, objs)
    ensures Find(t, root) != NotDirectory
  {
    hide Family, TreeOk, AllHeld, AllOwned, AllOnTheWay, Find, Above;
    if root in t {
      FindPresent(t, root);
    } else {
      FindAbsent(t, root);
    }
  }

  // ---------- retention ----------

  /** What makes a listed file expire: the time its metadata file decodes to, never if that does
      not decode, and its own time if there is none. */
  lemma ExpiredIff(c: Codec, root: Path, t: Tree, p: Path, cutoff: Time)
    requires p != [] && IsFile(t, p)
    ensures var m := SidecarPath(p);
      Expired(InfoOf(c, root, t, p), cutoff)
      <==> if IsFile(t, m)
           then c.unmarshal(t[m].data).Some? && ZERO_TIME != c.unmarshal(t[m].data).value.0 < cutoff
           else ZERO_TIME != t[p].modTime < cutoff
  {
    var m := SidecarPath(p);
    FindPresent(t, p);
    if m in t {
      FindPresent(t, m);
    } else {
      assert !Find(t, m).Found?;
    }
    hide SidecarPath, Find, KeyOf;
  }

  function Gone(infos: seq<Info>, cutoff: Time): set<string> {
    set i | i in Candidates(infos, cutoff) :: i.key
  }

  /** The objects a retention run leaves. */
  function Remaining(objs: Objects, prefix: string, cutoff: Time): Objects {
    map k | k in objs && !(HasPrefix(k, prefix) && objs[k].createdAt != ZERO_TIME && objs[k].createdAt < cutoff) :: objs[k]
  }

  lemma {:induction false} CandidatesAre(infos: seq<Info>, cutoff: Time)
    ensures forall i :: i in Candidates(infos, cutoff) <==> i in infos && Expired(i, cutoff)
    decreases |infos|
  {
    hide Expired;
    if infos != [] {
      var k := |infos| - 1;
      assert infos == infos[..k] + [infos[k]];
      CandidatesAre(infos[..k], cutoff);
    }
  }

  lemma {:induction false} CandidatesSorted(infos: seq<Info>, cutoff: Time)
    requires StrictlySorted(infos, InfoKey)
    ensures StrictlySorted(Candidates(infos, cutoff), InfoKey)
    decreases |infos|
  {
    hide Expired, InfoKey;
    if infos != [] {
      var k := |infos| - 1;
      CandidatesSorted(infos[..k], cutoff);
      CandidatesAre(infos[..k], cutoff);
      var before := Candidates(infos[..k], cutoff);
      forall j | 0 <= j < |before| ensures Less(InfoKey(before[j]), InfoKey(infos[k])) {
        assert before[j] in before;
        var n :| 0 <= n < k && infos[..k][n] == before[j];
      }
    }
  }

  lemma GoneStep(infos: seq<Info>, k: nat, cutoff: Time, objs: Objects)
    requires k + 1 == |infos|
    ensures objs - Gone(infos, cutoff)
            == if Expired(infos[k], cutoff) then (objs - Gone(infos[..k], cutoff)) - {infos[k].key} else objs - Gone(infos[..k], cutoff)
  {
    hide Expired;
    var before := Candidates(infos[..k], cutoff);
    if Expired(infos[k], cutoff) {
      assert Candidates(infos, cutoff) == before + [infos[k]];
      forall x ensures x in Gone(infos, cutoff) <==> x in Gone(infos[..k], cutoff) || x == infos[k].key {
        if x == infos[k].key { assert infos[k] in before + [infos[k]]; }
        if x in Gone(infos[..k], cutoff) {
          var i :| i in before && i.key == x;
          assert i in before + [infos[k]];
        }
      }
    } else {
      assert before + [] == before;
    }
  }

  /** Deleting expired entries one by one removes exactly their objects, and never fails. */
  lemma {:induction false} SweepRefines(c: Codec, root: Path, keys: iset<string>, t: Tree, objs: Objects, infos: seq<Info>, cutoff: Time)
    requires Represents(c, root, keys, t, objs) && forall n :: 0 <= n < |infos| ==> infos[n].key in keys
    ensures var r := Sweep(root, t, infos, cutoff);
      r.1 == Ok(()) && Represents(c, root, keys, r.0, objs - Gone(infos, cutoff))
    decreases |infos|
  {
    hide Expired, DeleteTree, Family, TreeOk, AllHeld, AllOwned, AllOnTheWay, NoFileAbove, RootOk, Gone;
    if infos == [] {
      assert objs - Gone(infos, cutoff) == objs by { NothingGone(cutoff); }
    } else {
      var k := |infos| - 1;
      SweepRefines(c, root, keys, t, objs, infos[..k], cutoff);
      GoneStep(infos, k, cutoff, objs);
      var t' := Sweep(root, t, infos[..k], cutoff).0;
      if Expired(infos[k], cutoff) {
        DeleteRefines(c, root, keys, t', objs - Gone(infos[..k], cutoff), infos[k].key);
      }
    }
  }

  lemma NothingGone(cutoff: Time)
    ensures Gone([], cutoff) == {}
  {
  }

  lemma GoneIsNotRemaining(objs: Objects, prefix: string, infos: seq<Info>, cutoff: Time)
    requires forall i :: i in infos <==> Shown(objs, prefix, i)
    ensures objs - Gone(infos, cutoff) == Remaining(objs, prefix, cutoff)
  {
    CandidatesAre(infos, cutoff);
    hide HasPrefix, Candidates;
    forall k | k in objs ensures k in Gone(infos, cutoff) <==> k !in Remaining(objs, prefix, cutoff) {
      var i := Info(k, objs[k].createdAt);
      assert Shown(objs, prefix, i) <==> HasPrefix(k, prefix);
      if k in Gone(infos, cutoff) {
        var j :| j in Candidates(infos, cutoff) && j.key == k;
        assert j == i;
      }
    }
  }

  /** A retention run reports, in key order, exactly the objects under the prefix that have a
      creation time before the cutoff. A real run removes those and nothing else; a dry run
      reports the same and changes nothing. */
  lemma RetentionRefines(c: Codec, root: Path, keys: iset<string>, t: Tree, objs: Objects, prefix: string,
                         infos: seq<Info>, cutoff: Time, dryRun: bool, t': Tree, r: Outcome<seq<Info>>)
    requires Represents(c, root, keys, t, objs) && IsListing(c, root, t, prefix, infos)
    requires Retained(root, t, infos, cutoff, dryRun, t', r)
    ensures r.Ok? && StrictlySorted(r.value, InfoKey)
    ensures forall i :: i in r.value <==> Shown(objs, prefix, i) && Expired(i, cutoff)
    ensures dryRun ==> t' == t
    ensures !dryRun ==> Represents(c, root, keys, t', Remaining(objs, prefix, cutoff))
  {
    ListRefines(c, root, keys, t, objs, prefix, infos);
    CandidatesAre(infos, cutoff);
    CandidatesSorted(infos, cutoff);
    hide StrictlySorted, Expired, Candidates, IsListing;
    if !dryRun {
      forall n | 0 <= n < |infos| ensures infos[n].key in keys {
        assert infos[n] in infos;
        assert Shown(objs, prefix, infos[n]);
      }
      hide Represents, Sweep;
      SweepRefines(c, root, keys, t, objs, infos, cutoff);
      GoneIsNotRemaining(objs, prefix, infos, cutoff);
    }
  }

  /** Running retention again at the same cutoff finds nothing and changes nothing. */
  lemma SecondRunFindsNothing(c: Codec, root: Path, keys: iset<string>, t: Tree, objs: Objects, prefix: string, cutoff: Time,
                              infos: seq<Info>, t': Tree, r: Outcome<seq<Info>>, infos': seq<Info>, t'': Tree, r': Outcome<seq<Info>>)
    requires Represents(c, root, keys, t, objs)
    requires IsListing(c, root, t, prefix, infos) && Retained(root, t, infos, cutoff, false, t', r)
    requires IsListing(c, root, t', prefix, infos') && Retained(root, t', infos', cutoff, false, t'', r')
    ensures r' == Ok([]) && t'' == t'
  {
    RetentionRefines(c, root, keys, t, objs, prefix, infos, cutoff, false, t', r);
    ListRefines(c, root, keys, t', Remaining(objs, prefix, cutoff), prefix, infos');
    hide Represents, IsListing, StrictlySorted;
    forall n | 0 <= n < |infos'| ensures !Expired(infos'[n], cutoff) {
      assert infos'[n] in infos';
      assert Shown(Remaining(objs, prefix, cutoff), prefix, infos'[n]);
    }
    NothingExpired(root, t', infos', cutoff);
  }

  lemma {:induction false} NothingExpired(root: Path, t: Tree, infos: seq<Info>, cutoff: Time)
    requires RootOk(root) && forall n :: 0 <= n < |infos| ==> !Expired(infos[n], cutoff)
    ensures Sweep(root, t, infos, cutoff) == (t, Ok(())) && Candidates(infos, cutoff) == []
    decreases |infos|
  {
    hide Expired, DeleteTree;
    if infos != [] {
      NothingExpired(root, t, infos[..|infos| - 1], cutoff);
    }
  }

  /** A run with a maximum age goes over a listing. */
  lemma RunHasListing(c: Codec, root: Path, keys: iset<string>, t: Tree, objs: Objects, policy: RetentionPolicy, now: Time,
                      t': Tree, r: Outcome<seq<Info>>) returns (infos: seq<Info>)
    requires Represents(c, root, keys, t, objs) && Ran(c, root, t, policy, now, t', r) && policy.maxAge > 0
    ensures IsListing(c, root, t, policy.prefix, infos) && Retained(root, t, infos, now - policy.maxAge, policy.dryRun, t', r)
  {
    hide Represents, IsListing, Retained, Find;
    ListSucceeds(c, root, keys, t, objs);
    infos :| IsListing(c, root, t, policy.prefix, infos) && Retained(root, t, infos, now - policy.maxAge, policy.dryRun, t', r);
  }

  lemma ApplyRefines(c: Codec, root: Path, keys: iset<string>, t: Tree, objs: Objects,
                     policy: RetentionPolicy, now: Time, t': Tree, r: Outcome<seq<Info>>)
    requires Represents(c, root, keys, t, objs) && Ran(c, root, t, policy, now, t', r)
    ensures r.Ok? && StrictlySorted(r.value, InfoKey)
    ensures forall i :: i in r.value <==> policy.maxAge > 0 && Shown(objs, policy.prefix, i) && Expired(i, now - policy.maxAge)
    ensures policy.maxAge <= 0 || policy.dryRun ==> t' == t
    ensures policy.maxAge > 0 && !policy.dryRun ==> Represents(c, root, keys, t', Remaining(objs, policy.prefix, now - policy.maxAge))
  {
    hide Represents, IsListing, Retained, Remaining, Shown, Expired, Find;
    if policy.maxAge > 0 {
      var infos := RunHasListing(c, root, keys, t, objs, policy, now, t', r);
      RetentionRefines(c, root, keys, t, objs, policy.prefix, infos, now - policy.maxAge, policy.dryRun, t', r);
    }
  }

  /** What a run leaves is what it does not report. */
  lemma RemainingIsUnreported(objs: Objects, prefix: string, cutoff: Time, reported: seq<Info>)
    requires forall i :: i in reported <==> Shown(objs, prefix, i) && Expired(i, cutoff)
    ensures Remaining(objs, prefix, cutoff) == objs - set i | i in reported :: i.key
  {
    forall k | k in objs ensures k in Remaining(objs, prefix, cutoff) <==> k !in (set i | i in reported :: i.key) {
      var entry := Info(k, objs[k].createdAt);
      assert Shown(objs, prefix, entry) <==> HasPrefix(k, prefix);
    }
  }

  /** On a store that represents objects `ApplyRetention` never fails. It reports, in key order,
      exactly the objects under the prefix with a creation time before the cutoff, and unless it
      is a dry run removes exactly those it reports; without a maximum age it does nothing. */
  lemma ApplyRetentionRefines(c: Codec, root: Path, keys: iset<string>, t: Tree, objs: Objects,
                              policy: RetentionPolicy, now: Time, t': Tree, r: Outcome<seq<Info>>)
    requires Represents(c, root, keys, t, objs) && Ran(c, root, t, policy, now, t', r)
    ensures r.Ok? && StrictlySorted(r.value, InfoKey)
    ensures forall i :: i in r.value <==>
      (policy.maxAge > 0 && i.key in objs && policy.prefix <= i.key && i.createdAt == objs[i.key].createdAt
       && i.createdAt != ZERO_TIME && i.createdAt < now - policy.maxAge)
    ensures policy.maxAge <= 0 || policy.dryRun ==> t' == t
    ensures policy.maxAge > 0 && !policy.dryRun ==> Represents(c, root, keys, t', objs - set i | i in r.value :: i.key)
  {
    hide Represents, Ran, StrictlySorted, Remaining;
    ApplyRefines(c, root, keys, t, objs, policy, now, t', r);
    if policy.maxAge > 0 {
      RemainingIsUnreported(objs, policy.prefix, now - policy.maxAge, r.value);
    }
  }

  /** Applying one policy again at the same clock finds nothing and changes nothing. */
  lemma ApplyTwiceFindsNothing(c: Codec, root: Path, keys: iset<string>, t: Tree, objs: Objects, policy: RetentionPolicy, now: Time,
                               t': Tree, r: Outcome<seq<Info>>, t'': Tree, r': Outcome<seq<Info>>)
    requires Represents(c, root, keys, t, objs) && !policy.dryRun
    requires Ran(c, root, t, policy, now, t', r) && Ran(c, root, t', policy, now, t'', r')
    ensures r' == Ok([]) && t'' == t'
  {
    hide Represents, IsListing, Retained, Remaining, Shown, Expired, Find, StrictlySorted;
    if policy.maxAge > 0 {
      var cutoff := now - policy.maxAge;
      var infos := RunHasListing(c, root, keys, t, objs, policy, now, t', r);
      ApplyRefines(c, root, keys, t, objs, policy, now, t', r);
      var infos' := RunHasListing(c, root, keys, t', Remaining(objs, policy.prefix, cutoff), policy, now, t'', r');
      SecondRunFindsNothing(c, root, keys, t, objs, policy.prefix, cutoff, infos, t', r, infos', t'', r');
    }
  }
}
