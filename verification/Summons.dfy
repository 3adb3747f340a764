/** Which converted monsters make it into the catalogue: no blockers, no repeated id, no summon left out. */
module Summons {
  datatype Monster = Monster(id: string, blockers: seq<string>, summonedIds: seq<string>)

  datatype Reason = Blocked(blockers: seq<string>) | Repeated | SummonsMissing(missing: seq<string>)

  datatype Skipped = Skipped(id: string, reason: Reason)

  function Ids(ms: seq<Monster>): set<string> { set m | m in ms :: m.id }

  // ---------------------------------------------------------------- blockers and repeats

  /** The unblocked monsters whose id was not seen before. */
  function Fresh(ms: seq<Monster>, seen: set<string>): seq<Monster> {
    if ms == [] then []
    else if ms[0].blockers != [] || ms[0].id in seen then Fresh(ms[1..], seen)
    else [ms[0]] + Fresh(ms[1..], seen + {ms[0].id})
  }

  function Refused(ms: seq<Monster>, seen: set<string>): seq<Skipped> {
    if ms == [] then []
    else if ms[0].blockers != [] then [Skipped(ms[0].id, Blocked(ms[0].blockers))] + Refused(ms[1..], seen)
    else if ms[0].id in seen then [Skipped(ms[0].id, Repeated)] + Refused(ms[1..], seen)
    else Refused(ms[1..], seen + {ms[0].id})
  }

  predicate Distinct(ms: seq<Monster>) { forall i, j :: 0 <= i < j < |ms| ==> ms[i].id != ms[j].id }

  /** Position `k` is the first one holding an unblocked monster of its id. */
  predicate First(ms: seq<Monster>, k: nat)
    requires k < |ms|
  {
    ms[k].blockers == [] && forall j :: 0 <= j < k && ms[j].blockers == [] ==> ms[j].id != ms[k].id
  }

  /** Exactly the first unblocked monster of each id goes on. */
  lemma {:induction false} FreshAreFirst(ms: seq<Monster>, seen: set<string>, m: Monster)
    ensures m in Fresh(ms, seen) <==> m.id !in seen && exists k: nat :: k < |ms| && First(ms, k) && ms[k] == m
    ensures Distinct(Fresh(ms, seen))
    ensures forall f :: f in Fresh(ms, seen) ==> f.id !in seen && f.blockers == []
  {
    if ms != [] {
      var taken := ms[0].blockers == [] && ms[0].id !in seen;
      var later := if taken then seen + {ms[0].id} else seen;
      FreshAreFirst(ms[1..], later, m);
      if m in Fresh(ms, seen) {
        if m in Fresh(ms[1..], later) {
          var k: nat :| k < |ms| - 1 && First(ms[1..], k) && ms[1..][k] == m;
          assert First(ms, k + 1) && ms[k + 1] == m;
        } else {
          assert First(ms, 0) && ms[0] == m;
        }
      }
      if m.id !in seen && exists k: nat :: k < |ms| && First(ms, k) && ms[k] == m {
        var k: nat :| k < |ms| && First(ms, k) && ms[k] == m;
        if k > 0 { assert First(ms[1..], k - 1) && ms[1..][k - 1] == m; }
      }
    }
  }

  lemma NextGoes(done: seq<Monster>, ms: seq<Monster>, i: nat, seen: set<string>)
    requires i < |ms|
    ensures done + Fresh(ms[i..], seen) ==
      if ms[i].blockers != [] || ms[i].id in seen then done + Fresh(ms[i + 1..], seen)
      else done + [ms[i]] + Fresh(ms[i + 1..], seen + {ms[i].id})
  {
    assert ms[i..][1..] == ms[i + 1..] && ms[i..][0] == ms[i];
    var rest := Fresh(ms[i + 1..], seen + {ms[i].id});
    assert done + ([ms[i]] + rest) == done + [ms[i]] + rest;
  }

  lemma NextRefused(done: seq<Skipped>, ms: seq<Monster>, i: nat, seen: set<string>)
    requires i < |ms|
    ensures done + Refused(ms[i..], seen) ==
      if ms[i].blockers != [] then done + [Skipped(ms[i].id, Blocked(ms[i].blockers))] + Refused(ms[i + 1..], seen)
      else if ms[i].id in seen then done + [Skipped(ms[i].id, Repeated)] + Refused(ms[i + 1..], seen)
      else done + Refused(ms[i + 1..], seen + {ms[i].id})
  {
    assert ms[i..][1..] == ms[i + 1..] && ms[i..][0] == ms[i];
    var rest := Refused(ms[i + 1..], seen);
    var blocked, repeated := [Skipped(ms[i].id, Blocked(ms[i].blockers))], [Skipped(ms[i].id, Repeated)];
    assert done + (blocked + rest) == done + blocked + rest;
    assert done + (repeated + rest) == done + repeated + rest;
  }

  method ReadGenerated(converted: seq<Monster>) returns (generated: seq<Monster>, skipped: seq<Skipped>)
    ensures generated == Fresh(converted, {}) && skipped == Refused(converted, {})
  {
    generated, skipped := [], [];
    var seen: set<string> := {};
    for i := 0 to |converted|
      invariant Fresh(converted, {}) == generated + Fresh(converted[i..], seen)
      invariant Refused(converted, {}) == skipped + Refused(converted[i..], seen)
    {
      var monster := converted[i];
      NextGoes(generated, converted, i, seen);
      NextRefused(skipped, converted, i, seen);
      if monster.blockers != [] {
        skipped := skipped + [Skipped(monster.id, Blocked(monster.blockers))];
      } else if monster.id in seen {
        skipped := skipped + [Skipped(monster.id, Repeated)];
      } else {
        seen := seen + {monster.id};
        generated := generated + [monster];
      }
    }
  }

  // ---------------------------------------------------------------- summons

  function Missing(summoned: seq<string>, ids: set<string>): seq<string> {
    if summoned == [] then []
    else (if summoned[0] in ids then [] else [summoned[0]]) + Missing(summoned[1..], ids)
  }

  predicate IsOrphan(m: Monster, ids: set<string>) { exists s :: s in m.summonedIds && s !in ids }

  function Orphans(ms: seq<Monster>, ids: set<string>): seq<Monster> {
    if ms == [] then [] else (if IsOrphan(ms[0], ids) then [ms[0]] else []) + Orphans(ms[1..], ids)
  }

  function Others(ms: seq<Monster>, ids: set<string>): (os: seq<Monster>)
    ensures |os| + |Orphans(ms, ids)| == |ms|
  {
    if ms == [] then [] else (if IsOrphan(ms[0], ids) then [] else [ms[0]]) + Others(ms[1..], ids)
  }

  lemma {:induction false} OrphanMembers(ms: seq<Monster>, ids: set<string>)
    ensures forall m :: m in Orphans(ms, ids) <==> m in ms && IsOrphan(m, ids)
    ensures forall m :: m in Others(ms, ids) <==> m in ms && !IsOrphan(m, ids)
  {
    hide IsOrphan;
    if ms != [] {
      OrphanMembers(ms[1..], ids);
      assert ms == [ms[0]] + ms[1..];
    }
  }

  /** Rounds of dropping whoever summons an id that is not there, until nobody does. */
  function Pruned(ms: seq<Monster>): seq<Monster>
    decreases |ms|
  {
    var ids := Ids(ms);
    if Orphans(ms, ids) == [] then ms else Pruned(Others(ms, ids))
  }

  function Report(m: Monster, ids: set<string>): Skipped { Skipped(m.id, SummonsMissing(Missing(m.summonedIds, ids))) }

  function Reported(orphans: seq<Monster>, ids: set<string>): seq<Skipped> {
    seq(|orphans|, i requires 0 <= i < |orphans| => Report(orphans[i], ids))
  }

  function Dropped(ms: seq<Monster>): seq<Skipped>
    decreases |ms|
  {
    var ids := Ids(ms);
    if Orphans(ms, ids) == [] then [] else Reported(Orphans(ms, ids), ids) + Dropped(Others(ms, ids))
  }

  /** `splice(indexOf(m), 1)`. */
  function Without(ms: seq<Monster>, m: Monster): seq<Monster>
    requires m in ms
  {
    if ms[0] == m then ms[1..] else [ms[0]] + Without(ms[1..], m)
  }

  ghost predicate Removable(ms: seq<Monster>, orphans: seq<Monster>)
    decreases |orphans|
  {
    orphans == [] || (orphans[0] in ms && Removable(Without(ms, orphans[0]), orphans[1..]))
  }

  ghost function WithoutAll(ms: seq<Monster>, orphans: seq<Monster>): seq<Monster>
    requires Removable(ms, orphans)
    decreases |orphans|
  {
    if orphans == [] then ms else WithoutAll(Without(ms, orphans[0]), orphans[1..])
  }

  lemma {:induction false} HeadStays(x: Monster, ms: seq<Monster>, orphans: seq<Monster>)
    requires Removable(ms, orphans) && x !in orphans
    ensures Removable([x] + ms, orphans) && WithoutAll([x] + ms, orphans) == [x] + WithoutAll(ms, orphans)
    decreases |orphans|
  {
    if orphans != [] {
      assert ([x] + ms)[1..] == ms;
      assert Without([x] + ms, orphans[0]) == [x] + Without(ms, orphans[0]);
      HeadStays(x, Without(ms, orphans[0]), orphans[1..]);
    }
  }

  /** Splicing the orphans out one after the other leaves the others, in order. */
  lemma {:induction false} SplicingLeavesOthers(ms: seq<Monster>, ids: set<string>)
    ensures Removable(ms, Orphans(ms, ids)) && WithoutAll(ms, Orphans(ms, ids)) == Others(ms, ids)
  {
    if ms != [] {
      SplicingLeavesOthers(ms[1..], ids);
      OrphanMembers(ms[1..], ids);
      var rest := Orphans(ms[1..], ids);
      if IsOrphan(ms[0], ids) {
        assert Orphans(ms, ids)[1..] == rest;
        assert Without(ms, ms[0]) == ms[1..];
      } else {
        assert [ms[0]] + ms[1..] == ms && Orphans(ms, ids) == rest;
        HeadStays(ms[0], ms[1..], rest);
      }
    }
  }

  lemma {:induction false} WithoutIsSplice(ms: seq<Monster>, m: Monster, i: nat)
    requires i < |ms| && ms[i] == m && forall j :: 0 <= j < i ==> ms[j] != m
    ensures m in ms && Without(ms, m) == ms[..i] + ms[i + 1..]
  {
    if i > 0 {
      WithoutIsSplice(ms[1..], m, i - 1);
      assert ms[1..][..i - 1] == ms[1..i] && ms[1..][i..] == ms[i + 1..];
    }
  }

  method SpliceOut(ms: seq<Monster>, m: Monster) returns (rest: seq<Monster>)
    requires m in ms
    ensures rest == Without(ms, m)
  {
    ghost var at :| 0 <= at < |ms| && ms[at] == m;
    var i := 0;
    while ms[i] != m
      invariant i <= at
      invariant forall j :: 0 <= j < i ==> ms[j] != m
      decreases at - i
    {
      i := i + 1;
    }
    WithoutIsSplice(ms, m, i);
    rest := ms[..i] + ms[i + 1..];
  }

  lemma {:induction false} OrphansSnoc(ms: seq<Monster>, m: Monster, ids: set<string>)
    ensures Orphans(ms + [m], ids) == if IsOrphan(m, ids) then Orphans(ms, ids) + [m] else Orphans(ms, ids)
  {
    hide IsOrphan;
    if ms == [] {
      assert ms + [m] == [m] && [m][1..] == [];
    } else {
      OrphansSnoc(ms[1..], m, ids);
      assert (ms + [m])[1..] == ms[1..] + [m];
      var head: seq<Monster> := if IsOrphan(ms[0], ids) then [ms[0]] else [];
      assert head + (Orphans(ms[1..], ids) + [m]) == head + Orphans(ms[1..], ids) + [m];
    }
  }

  method FindOrphans(ms: seq<Monster>, ids: set<string>) returns (orphans: seq<Monster>)
    ensures orphans == Orphans(ms, ids)
  {
    hide IsOrphan;
    orphans := [];
    for i := 0 to |ms|
      invariant orphans == Orphans(ms[..i], ids)
    {
      OrphansSnoc(ms[..i], ms[i], ids);
      assert ms[..i + 1] == ms[..i] + [ms[i]];
      if IsOrphan(ms[i], ids) { orphans := orphans + [ms[i]]; }
    }
    assert ms[..|ms|] == ms;
  }

  /** The pruning loop. */
  method PruneSummons(generated: seq<Monster>) returns (kept: seq<Monster>, skipped: seq<Skipped>)
    ensures kept == Pruned(generated) && skipped == Dropped(generated)
  {
    kept, skipped := generated, [];
    while true
      invariant Pruned(kept) == Pruned(generated)
      invariant Dropped(generated) == skipped + Dropped(kept)
      decreases |kept|
    {
      var ids := Ids(kept);
      var orphans := FindOrphans(kept, ids);
      if orphans == [] { break; }
      var report: seq<Skipped>;
      ghost var others := Others(kept, ids);
      ghost var before := skipped;
      kept, report := DropRound(kept, orphans, ids);
      skipped := skipped + report;
      assert skipped + Dropped(others) == before + (report + Dropped(others));
    }
  }

  /** One round: reports each orphan and splices it out. */
  method DropRound(ms: seq<Monster>, orphans: seq<Monster>, ids: set<string>) returns (kept: seq<Monster>, report: seq<Skipped>)
    requires orphans == Orphans(ms, ids)
    ensures kept == Others(ms, ids) && report == Reported(orphans, ids)
  {
    SplicingLeavesOthers(ms, ids);
    hide Report, Orphans, Others, Without;
    kept, report := ms, [];
    for i := 0 to |orphans|
      invariant Removable(kept, orphans[i..]) && WithoutAll(kept, orphans[i..]) == Others(ms, ids)
      invariant report == Reported(orphans, ids)[..i]
    {
      var monster := orphans[i];
      assert orphans[i..][1..] == orphans[i + 1..];
      kept := SpliceOut(kept, monster);
      report := report + [Report(monster, ids)];
    }
  }

  // ---------------------------------------------------------------- results

  /** Everybody in the set has everybody it summons in the set. */
  ghost predicate Closed(ms: set<Monster>) {
    forall m, s :: m in ms && s in m.summonedIds ==> exists n :: n in ms && n.id == s
  }

  ghost function Members(ms: seq<Monster>): set<Monster> { set m | m in ms }

  /** Nobody outside a closed set is needed by it: a round drops none of its members. */
  lemma ClosedSurvives(ms: seq<Monster>, closed: set<Monster>)
    requires Closed(closed) && closed <= Members(ms)
    ensures closed <= Members(Others(ms, Ids(ms)))
  {
    OrphanMembers(ms, Ids(ms));
    forall m | m in closed ensures m in Others(ms, Ids(ms)) {
      forall s | s in m.summonedIds ensures s in Ids(ms) {
        var n :| n in closed && n.id == s;
        assert n in ms;
      }
    }
  }

  /** Pruning leaves the largest closed part of the list. */
  lemma {:induction false} PrunedIsLargestClosed(ms: seq<Monster>, closed: set<Monster>)
    ensures Closed(Members(Pruned(ms))) && Members(Pruned(ms)) <= Members(ms)
    ensures Closed(closed) && closed <= Members(ms) ==> closed <= Members(Pruned(ms))
    decreases |ms|
  {
    var ids := Ids(ms);
    OrphanMembers(ms, ids);
    if Orphans(ms, ids) == [] {
      forall m, s | m in Members(ms) && s in m.summonedIds ensures exists n :: n in Members(ms) && n.id == s {
        assert m !in Orphans(ms, ids);
        var n :| n in ms && n.id == s;
        assert n in Members(ms);
      }
    } else {
      if Closed(closed) && closed <= Members(ms) { ClosedSurvives(ms, closed); }
      PrunedIsLargestClosed(Others(ms, ids), closed);
    }
  }

  /** The members of `ms` that are in `kept`, in the order of `ms`. */
  ghost function Selected(ms: seq<Monster>, kept: set<Monster>): seq<Monster> {
    if ms == [] then [] else (if ms[0] in kept then [ms[0]] else []) + Selected(ms[1..], kept)
  }

  lemma {:induction false} OthersAreSelected(ms: seq<Monster>, ids: set<string>, kept: set<Monster>)
    requires forall m :: m in kept ==> !IsOrphan(m, ids)
    ensures Selected(ms, kept) == Selected(Others(ms, ids), kept)
  {
    if ms != [] {
      var orphan := IsOrphan(ms[0], ids);
      hide IsOrphan;
      OthersAreSelected(ms[1..], ids, kept);
      var rest := Others(ms[1..], ids);
      if orphan {
        assert Others(ms, ids) == [] + rest == rest;
      } else {
        assert Others(ms, ids) == [ms[0]] + rest && ([ms[0]] + rest)[1..] == rest;
      }
    }
  }

  lemma {:induction false} SelectedAll(ms: seq<Monster>, kept: set<Monster>)
    requires Members(ms) <= kept
    ensures Selected(ms, kept) == ms
  {
    if ms != [] {
      assert ms[0] in Members(ms);
      assert Members(ms[1..]) <= Members(ms);
      SelectedAll(ms[1..], kept);
    }
  }

  /** Pruning keeps the order, and keeps every copy of what it keeps. */
  lemma {:induction false} PrunedKeepsOrder(ms: seq<Monster>)
    ensures Pruned(ms) == Selected(ms, Members(Pruned(ms)))
    decreases |ms|
  {
    var ids := Ids(ms);
    if Orphans(ms, ids) == [] {
      SelectedAll(ms, Members(ms));
    } else {
      var others := Others(ms, ids);
      OrphanMembers(ms, ids);
      PrunedKeepsOrder(others);
      PrunedIsLargestClosed(others, {});
      forall m | m in Members(Pruned(ms)) ensures !IsOrphan(m, ids) { assert m in others; }
      OthersAreSelected(ms, ids, Members(Pruned(ms)));
    }
  }

  ghost predicate Justified(m: Skipped, kept: set<string>) {
    m.reason.SummonsMissing? && m.reason.missing != [] && forall s :: s in m.reason.missing ==> s !in kept
  }

  lemma {:induction false} MissingIsAbsent(summoned: seq<string>, ids: set<string>, s: string)
    ensures s in Missing(summoned, ids) <==> s in summoned && s !in ids
  {
    if summoned != [] { MissingIsAbsent(summoned[1..], ids, s); }
  }

  lemma ReportIsJustified(m: Monster, ids: set<string>, kept: set<string>)
    requires IsOrphan(m, ids) && kept <= ids
    ensures Justified(Report(m, ids), kept)
  {
    var s :| s in m.summonedIds && s !in ids;
    MissingIsAbsent(m.summonedIds, ids, s);
    forall t | t in Report(m, ids).reason.missing ensures t !in kept {
      MissingIsAbsent(m.summonedIds, ids, t);
    }
  }

  lemma PrunedIds(ms: seq<Monster>)
    ensures Ids(Pruned(ms)) <= Ids(ms)
  {
    PrunedIsLargestClosed(ms, {});
    forall m | m in Pruned(ms) ensures m in ms { assert m in Members(Pruned(ms)); }
  }

  /** Each monster reported names summons that really are not in the catalogue. */
  lemma {:induction false} DroppedAreJustified(ms: seq<Monster>)
    ensures forall d :: d in Dropped(ms) ==> Justified(d, Ids(Pruned(ms)))
    decreases |ms|
  {
    var ids := Ids(ms);
    var orphans := Orphans(ms, ids);
    if orphans != [] {
      OrphanMembers(ms, ids);
      DroppedAreJustified(Others(ms, ids));
      PrunedIds(ms);
      forall k | 0 <= k < |orphans| ensures Justified(Reported(orphans, ids)[k], Ids(Pruned(ms))) {
        ReportIsJustified(orphans[k], ids, Ids(Pruned(ms)));
      }
    }
  }

  /** How many of the monsters, and how many of the reports, carry the id. */
  function Tally(ms: seq<Monster>, id: string): nat {
    if ms == [] then 0 else (if ms[0].id == id then 1 else 0) + Tally(ms[1..], id)
  }

  function TallySkipped(ds: seq<Skipped>, id: string): nat {
    if ds == [] then 0 else (if ds[0].id == id then 1 else 0) + TallySkipped(ds[1..], id)
  }

  lemma {:induction false} RoundConserves(ms: seq<Monster>, ids: set<string>, id: string)
    ensures Tally(ms, id) == Tally(Others(ms, ids), id) + Tally(Orphans(ms, ids), id)
  {
    if ms != [] {
      RoundConserves(ms[1..], ids, id);
      var orphan := IsOrphan(ms[0], ids);
      hide IsOrphan;
      var others, orphans := Others(ms[1..], ids), Orphans(ms[1..], ids);
      if orphan {
        assert Others(ms, ids) == [] + others == others && Orphans(ms, ids) == [ms[0]] + orphans;
        assert ([ms[0]] + orphans)[1..] == orphans;
      } else {
        assert Others(ms, ids) == [ms[0]] + others && Orphans(ms, ids) == [] + orphans == orphans;
        assert ([ms[0]] + others)[1..] == others;
      }
    }
  }

  lemma {:induction false} ReportedTally(orphans: seq<Monster>, ids: set<string>, more: seq<Skipped>, id: string)
    ensures TallySkipped(Reported(orphans, ids) + more, id) == Tally(orphans, id) + TallySkipped(more, id)
  {
    var reported := Reported(orphans, ids);
    if orphans == [] {
      assert reported + more == more;
    } else {
      ReportedTally(orphans[1..], ids, more, id);
      assert (reported + more)[1..] == Reported(orphans[1..], ids) + more;
    }
  }

  /** Every monster is either kept or reported, and never both: the copies of each id add up. */
  lemma {:induction false} PruningConserves(ms: seq<Monster>, id: string)
    ensures Tally(ms, id) == Tally(Pruned(ms), id) + TallySkipped(Dropped(ms), id)
    decreases |ms|
  {
    var ids := Ids(ms);
    var orphans := Orphans(ms, ids);
    if orphans != [] {
      var others := Others(ms, ids);
      PruningConserves(others, id);
      RoundConserves(ms, ids, id);
      ReportedTally(orphans, ids, Dropped(others), id);
    }
  }

  // ---------------------------------------------------------------- the whole catalogue

  method ReadMonsterCatalog(converted: seq<Monster>) returns (catalogue: seq<Monster>, skipped: seq<Skipped>)
    ensures catalogue == Pruned(Fresh(converted, {}))
    ensures skipped == Refused(converted, {}) + Dropped(Fresh(converted, {}))
  {
    var generated, refused := ReadGenerated(converted);
    var dropped: seq<Skipped>;
    catalogue, dropped := PruneSummons(generated);
    skipped := refused + dropped;
  }

  predicate IsFirst(m: Monster, converted: seq<Monster>) {
    exists k: nat :: k < |converted| && First(converted, k) && converted[k] == m
  }

  ghost predicate Candidate(closed: set<Monster>, converted: seq<Monster>) {
    Closed(closed) && forall n :: n in closed ==> IsFirst(n, converted)
  }

  /** A monster is in the catalogue exactly when some closed set of first unblocked monsters has it. */
  lemma CatalogueIsLargestClosed(converted: seq<Monster>, m: Monster)
    ensures m in Pruned(Fresh(converted, {})) <==> exists closed :: Candidate(closed, converted) && m in closed
  {
    var generated := Fresh(converted, {});
    var kept := Members(Pruned(generated));
    PrunedIsLargestClosed(generated, kept);
    forall n ensures n in generated <==> IsFirst(n, converted) {
      FreshAreFirst(converted, {}, n);
    }
    if m in Pruned(generated) {
      assert Candidate(kept, converted) && m in kept;
    }
    if exists closed :: Candidate(closed, converted) && m in closed {
      var closed :| Candidate(closed, converted) && m in closed;
      PrunedIsLargestClosed(generated, closed);
      assert m in kept;
    }
  }
}
