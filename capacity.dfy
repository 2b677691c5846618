/**
 * A relief center's NumberOfVolunteersWorking. The services keep it with two
 * strategies: a full recount of the Active volunteers assigned to the center,
 * and an incremental +1/-1 that is clamped at zero and ignores the
 * volunteer's status. This module defines both and relates them.
 */
module Capacity {
  import opened Wrappers
  import opened Entities

  /** Whether volunteer `v` is one the recount counts for center `c`. */
  predicate CountsAt(v: Volunteer, c: int) {
    v.assignedCenter == Some(c) && v.status == StatusActive
  }

  function ActiveAt(vols: map<int, Volunteer>, c: int): set<int> {
    set k | k in vols && CountsAt(vols[k], c)
  }

  /** The recount: the number of Active volunteers assigned to `c`. */
  function Recount(vols: map<int, Volunteer>, c: int): nat {
    |ActiveAt(vols, c)|
  }

  function Indicator(v: Volunteer, c: int): nat {
    if CountsAt(v, c) then 1 else 0
  }

  /** The incremental strategy: add `change` and clamp the result at zero. */
  function Adjusted(count: int, change: int): (r: int)
    ensures r >= 0
    ensures r >= count + change
    ensures count + change >= 0 ==> r == count + change
  {
    if count + change < 0 then 0 else count + change
  }

  /** The centers after the recount of `c`; an unknown center leaves them as they are. */
  function WithRecount(centers: map<int, ReliefCenter>, vols: map<int, Volunteer>, c: int): (r: map<int, ReliefCenter>)
    ensures r.Keys == centers.Keys
    ensures c in centers ==> r[c] == centers[c].(volunteersWorking := Recount(vols, c))
    ensures forall k :: k in centers && k != c ==> r[k] == centers[k]
  {
    if c in centers then centers[c := centers[c].(volunteersWorking := Recount(vols, c))] else centers
  }

  /** The centers after the incremental adjustment of `c`; an unknown center is a no-op. */
  function WithAdjusted(centers: map<int, ReliefCenter>, c: int, change: int): (r: map<int, ReliefCenter>)
    ensures r.Keys == centers.Keys
    ensures c in centers ==> r[c] == centers[c].(volunteersWorking := Adjusted(centers[c].volunteersWorking, change))
    ensures forall k :: k in centers && k != c ==> r[k] == centers[k]
  {
    if c in centers
    then centers[c := centers[c].(volunteersWorking := Adjusted(centers[c].volunteersWorking, change))]
    else centers
  }

  /** The -1 at the center a volunteer leaves, if it had one. */
  function Released(centers: map<int, ReliefCenter>, from: Option<int>): (r: map<int, ReliefCenter>)
    ensures r.Keys == centers.Keys
  {
    if from.Some? then WithAdjusted(centers, from.value, -1) else centers
  }

  /** Every center's stored count equals its recount. */
  ghost predicate InSync(centers: map<int, ReliefCenter>, vols: map<int, Volunteer>) {
    forall c :: c in centers ==> centers[c].volunteersWorking == Recount(vols, c)
  }

  /** Recounting twice leaves the same centers as recounting once. */
  lemma RecountIdempotent(centers: map<int, ReliefCenter>, vols: map<int, Volunteer>, c: int)
    ensures WithRecount(WithRecount(centers, vols, c), vols, c) == WithRecount(centers, vols, c)
  {
  }

  lemma ActiveAtAfterPut(vols: map<int, Volunteer>, k: int, v: Volunteer, c: int)
    ensures ActiveAt(vols[k := v], c) == (ActiveAt(vols, c) - {k}) + (if CountsAt(v, c) then {k} else {})
  {
  }

  /** Writing row `k` changes the recount of `c` by the old row's share and the new row's share. */
  lemma RecountAfterPut(vols: map<int, Volunteer>, k: int, v: Volunteer, c: int)
    ensures Recount(vols[k := v], c)
      == Recount(vols, c) - (if k in vols then Indicator(vols[k], c) else 0) + Indicator(v, c)
  {
    var before := ActiveAt(vols, c);
    var rest := before - {k};
    ActiveAtAfterPut(vols, k, v, c);
    assert |rest + (if CountsAt(v, c) then {k} else {})| == |rest| + Indicator(v, c);
    if k in vols && CountsAt(vols[k], c) {
      assert before == rest + {k};
    } else {
      assert before == rest;
    }
  }

  /** Removing row `k` lowers the recount of `c` by that row's share. */
  lemma RecountAfterRemove(vols: map<int, Volunteer>, k: int, c: int)
    ensures Recount(vols - {k}, c) == Recount(vols, c) - (if k in vols then Indicator(vols[k], c) else 0)
  {
    var before := ActiveAt(vols, c);
    var after := ActiveAt(vols - {k}, c);
    assert after == before - {k};
    if k in vols && CountsAt(vols[k], c) {
      assert before == after + {k};
    } else {
      assert before == after;
    }
  }

  /** Adding an Active volunteer at `c` and incrementing keeps a synchronised count synchronised. */
  lemma IncrementMatchesRecount(count: int, vols: map<int, Volunteer>, k: int, v: Volunteer, c: int)
    requires count == Recount(vols, c) && k !in vols && CountsAt(v, c)
    ensures Adjusted(count, 1) == Recount(vols[k := v], c)
  {
    RecountAfterPut(vols, k, v, c);
  }

  /** Removing an Active volunteer of `c` and decrementing keeps a synchronised count synchronised. */
  lemma DecrementMatchesRecount(count: int, vols: map<int, Volunteer>, k: int, c: int)
    requires count == Recount(vols, c) && k in vols && CountsAt(vols[k], c)
    ensures Adjusted(count, -1) == Recount(vols - {k}, c)
  {
    RecountAfterRemove(vols, k, c);
  }

  /**
   * Moving an Active volunteer from `a` to `b` with -1 at `a` and +1 at `b`
   * keeps both synchronised counts synchronised.
   */
  lemma MoveMatchesRecount(countA: int, countB: int, vols: map<int, Volunteer>, k: int, a: int, b: int)
    requires a != b && k in vols && CountsAt(vols[k], a)
    requires countA == Recount(vols, a) && countB == Recount(vols, b)
    ensures var moved := vols[k := vols[k].(assignedCenter := Some(b))];
      Adjusted(countA, -1) == Recount(moved, a) && Adjusted(countB, 1) == Recount(moved, b)
  {
    var v := vols[k].(assignedCenter := Some(b));
    RecountAfterPut(vols, k, v, a);
    RecountAfterPut(vols, k, v, b);
  }

  /**
   * The incremental strategy ignores status: moving a volunteer that is not
   * Active to `b` and incrementing leaves `b`'s count one above its recount.
   */
  lemma InactiveMoveDrifts(countB: int, vols: map<int, Volunteer>, k: int, b: int)
    requires k in vols && vols[k].status != StatusActive && countB == Recount(vols, b)
    ensures Adjusted(countB, 1) == Recount(vols[k := vols[k].(assignedCenter := Some(b))], b) + 1
  {
    RecountAfterPut(vols, k, vols[k].(assignedCenter := Some(b)), b);
  }

  // Keeping every center in sync

  /**
   * The +1 of CreateUser and of a user turned volunteer: adding an Active
   * volunteer and adjusting its center keeps all counts in sync.
   */
  lemma AddActiveKeepsInSync(centers: map<int, ReliefCenter>, vols: map<int, Volunteer>, k: int, v: Volunteer)
    requires InSync(centers, vols) && k !in vols
    requires v.assignedCenter.Some? && v.status == StatusActive
    ensures InSync(WithAdjusted(centers, v.assignedCenter.value, 1), vols[k := v])
  {
    var c := v.assignedCenter.value;
    var r := WithAdjusted(centers, c, 1);
    forall d | d in r
      ensures r[d].volunteersWorking == Recount(vols[k := v], d)
    {
      RecountAfterPut(vols, k, v, d);
    }
  }

  /**
   * CreateUser as the source has it: the Active volunteer is added but the
   * +1 is never saved, so its center ends one below the recount.
   */
  lemma UnsavedAddDrifts(centers: map<int, ReliefCenter>, vols: map<int, Volunteer>, k: int, v: Volunteer)
    requires InSync(centers, vols) && k !in vols
    requires v.assignedCenter.Some? && v.assignedCenter.value in centers && v.status == StatusActive
    ensures centers[v.assignedCenter.value].volunteersWorking == Recount(vols[k := v], v.assignedCenter.value) - 1
  {
    RecountAfterPut(vols, k, v, v.assignedCenter.value);
  }

  /**
   * UpdateUser's center change as the source has it: the Active volunteer
   * moves but neither the -1 nor the +1 is saved, so the new center ends one
   * below its recount and the old one one above.
   */
  lemma UnsavedMoveDrifts(centers: map<int, ReliefCenter>, vols: map<int, Volunteer>, k: int, b: int)
    requires InSync(centers, vols) && k in vols
    requires vols[k].status == StatusActive && vols[k].assignedCenter != Some(b)
    ensures var moved := vols[k := vols[k].(assignedCenter := Some(b))];
      && (b in centers ==> centers[b].volunteersWorking == Recount(moved, b) - 1)
      && (vols[k].assignedCenter.Some? && vols[k].assignedCenter.value in centers ==>
            centers[vols[k].assignedCenter.value].volunteersWorking
              == Recount(moved, vols[k].assignedCenter.value) + 1)
  {
    var v := vols[k].(assignedCenter := Some(b));
    RecountAfterPut(vols, k, v, b);
    if vols[k].assignedCenter.Some? {
      RecountAfterPut(vols, k, v, vols[k].assignedCenter.value);
    }
  }

  /**
   * UpdateUser's role drop as the source has it: the Active volunteer goes
   * but the -1 is not saved, so its center ends one above the recount.
   */
  lemma UnsavedRemoveDrifts(centers: map<int, ReliefCenter>, vols: map<int, Volunteer>, k: int)
    requires InSync(centers, vols) && k in vols && vols[k].status == StatusActive
    requires vols[k].assignedCenter.Some? && vols[k].assignedCenter.value in centers
    ensures centers[vols[k].assignedCenter.value].volunteersWorking
              == Recount(vols - {k}, vols[k].assignedCenter.value) + 1
  {
    RecountAfterRemove(vols, k, vols[k].assignedCenter.value);
  }

  /**
   * The -1 of a volunteer removed from its center keeps all counts in sync,
   * provided the volunteer was Active; otherwise its center drifts one below
   * the recount.
   */
  lemma RemoveKeepsInSync(centers: map<int, ReliefCenter>, vols: map<int, Volunteer>, k: int)
    requires InSync(centers, vols) && k in vols
    ensures var r := Released(centers, vols[k].assignedCenter);
      (vols[k].status == StatusActive ==> InSync(r, vols - {k}))
      && (vols[k].status != StatusActive && vols[k].assignedCenter.Some? ==>
            var c := vols[k].assignedCenter.value;
            c in centers && Recount(vols, c) > 0 ==> r[c].volunteersWorking == Recount(vols - {k}, c) - 1)
  {
    var r := Released(centers, vols[k].assignedCenter);
    forall d | d in r
      ensures (vols[k].status == StatusActive ==> r[d].volunteersWorking == Recount(vols - {k}, d))
    {
      RecountAfterRemove(vols, k, d);
    }
    if vols[k].assignedCenter.Some? {
      RecountAfterRemove(vols, k, vols[k].assignedCenter.value);
    }
  }

  /** A volunteer without a center changed in place, and still without one, leaves every recount alone. */
  lemma UnassignedKeepsInSync(centers: map<int, ReliefCenter>, vols: map<int, Volunteer>, k: int, v: Volunteer)
    requires InSync(centers, vols) && k in vols
    requires vols[k].assignedCenter.None? && v.assignedCenter.None?
    ensures InSync(centers, vols[k := v])
  {
    forall c | c in centers
      ensures centers[c].volunteersWorking == Recount(vols[k := v], c)
    {
      RecountAfterPut(vols, k, v, c);
    }
  }

  /**
   * A volunteer changed in place at one center, followed by the recount of
   * that center, keeps all counts in sync.
   */
  lemma RecountKeepsInSync(centers: map<int, ReliefCenter>, vols: map<int, Volunteer>, k: int, v: Volunteer, c: int)
    requires InSync(centers, vols)
    requires v.assignedCenter == Some(c)
    requires k in vols ==> vols[k].assignedCenter == Some(c)
    ensures InSync(WithRecount(centers, vols[k := v], c), vols[k := v])
  {
    var r := WithRecount(centers, vols[k := v], c);
    forall d | d in r && d != c
      ensures r[d].volunteersWorking == Recount(vols[k := v], d)
    {
      RecountAfterPut(vols, k, v, d);
    }
  }

  /**
   * The center change of an Active volunteer: -1 at the old center (if any)
   * and +1 at the new one keep all counts in sync.
   */
  lemma MoveKeepsInSync(centers: map<int, ReliefCenter>, vols: map<int, Volunteer>, k: int, b: int)
    requires InSync(centers, vols) && k in vols
    requires vols[k].status == StatusActive && vols[k].assignedCenter != Some(b)
    ensures InSync(WithAdjusted(Released(centers, vols[k].assignedCenter), b, 1),
                   vols[k := vols[k].(assignedCenter := Some(b))])
  {
    var v := vols[k].(assignedCenter := Some(b));
    var r := WithAdjusted(Released(centers, vols[k].assignedCenter), b, 1);
    forall d | d in r
      ensures r[d].volunteersWorking == Recount(vols[k := v], d)
    {
      RecountAfterPut(vols, k, v, d);
    }
  }
}
