/**
 * The portfolio registry as values: the ordered list of portfolio records and
 * what each registry operation makes of it. The store's methods are proved
 * against these functions; the lemmas here state what the operations promise.
 */
module Registry {
  import opened Records

  // ---------------------------------------------------------------- lookups

  /** The position of the first active record. */
  function ActiveIndex(ps: seq<Portfolio>): (r: Option<nat>)
    ensures r.None? <==> forall i :: 0 <= i < |ps| ==> !ps[i].isActive
    ensures r.Some? ==> r.value < |ps| && ps[r.value].isActive
    ensures r.Some? ==> forall j :: 0 <= j < r.value ==> !ps[j].isActive
  {
    if ps == [] then None
    else if ps[0].isActive then Some(0)
    else match ActiveIndex(ps[1..])
      case None => None
      case Some(k) => Some(k + 1)
  }

  /** The position of the first record with id `id`. */
  function IdIndex(ps: seq<Portfolio>, id: string): (r: Option<nat>)
    ensures r.None? <==> forall i :: 0 <= i < |ps| ==> ps[i].id != id
    ensures r.Some? ==> r.value < |ps| && ps[r.value].id == id
    ensures r.Some? ==> forall j :: 0 <= j < r.value ==> ps[j].id != id
  {
    if ps == [] then None
    else if ps[0].id == id then Some(0)
    else match IdIndex(ps[1..], id)
      case None => None
      case Some(k) => Some(k + 1)
  }

  predicate HasId(ps: seq<Portfolio>, id: string)
  {
    exists i :: 0 <= i < |ps| && ps[i].id == id
  }

  /** `get_active_portfolio`: the first active record, if any. */
  function ActivePortfolio(ps: seq<Portfolio>): (r: Option<Portfolio>)
    ensures r.None? <==> forall i :: 0 <= i < |ps| ==> !ps[i].isActive
    ensures r.Some? ==> r.value.isActive
    ensures r.Some? ==> exists i :: 0 <= i < |ps| && ps[i] == r.value && forall j :: 0 <= j < i ==> !ps[j].isActive
  {
    match ActiveIndex(ps)
    case None => None
    case Some(i) => Some(ps[i])
  }

  /** `get_portfolio_by_id`: the first record with id `id`, if any. */
  function PortfolioById(ps: seq<Portfolio>, id: string): (r: Option<Portfolio>)
    ensures r.None? <==> !HasId(ps, id)
    ensures r.Some? ==> r.value.id == id
    ensures r.Some? ==> exists i :: 0 <= i < |ps| && ps[i] == r.value && forall j :: 0 <= j < i ==> ps[j].id != id
  {
    match IdIndex(ps, id)
    case None => None
    case Some(i) => Some(ps[i])
  }

  // ------------------------------------------------------------- invariants

  function ActiveCount(ps: seq<Portfolio>): nat
  {
    if ps == [] then 0 else (if ps[0].isActive then 1 else 0) + ActiveCount(ps[1..])
  }

  function IdCount(ps: seq<Portfolio>, id: string): nat
  {
    if ps == [] then 0 else (if ps[0].id == id then 1 else 0) + IdCount(ps[1..], id)
  }

  predicate UniqueIds(ps: seq<Portfolio>)
  {
    forall i, j :: 0 <= i < j < |ps| ==> ps[i].id != ps[j].id
  }

  /** The registry invariant: ids are unique and at most one record is active. */
  predicate Wellformed(ps: seq<Portfolio>)
  {
    UniqueIds(ps) && ActiveCount(ps) <= 1
  }

  /** `qs` is `ps` with only the contents of records changed: same ids, same flags, same order. */
  predicate SameKeys(ps: seq<Portfolio>, qs: seq<Portfolio>)
  {
    |qs| == |ps| && forall i :: 0 <= i < |ps| ==> qs[i].id == ps[i].id && qs[i].isActive == ps[i].isActive
  }

  lemma {:induction false} SameKeysLookups(ps: seq<Portfolio>, qs: seq<Portfolio>)
    requires SameKeys(ps, qs)
    ensures ActiveIndex(qs) == ActiveIndex(ps)
    ensures forall id :: IdIndex(qs, id) == IdIndex(ps, id)
    ensures ActiveCount(qs) == ActiveCount(ps)
    ensures UniqueIds(qs) == UniqueIds(ps)
  {
    if ps != [] {
      SameKeysLookups(ps[1..], qs[1..]);
    }
  }

  lemma {:induction false} IdCountPresence(ps: seq<Portfolio>, id: string)
    ensures IdCount(ps, id) > 0 <==> HasId(ps, id)
    ensures UniqueIds(ps) ==> IdCount(ps, id) <= 1
  {
    if ps != [] {
      IdCountPresence(ps[1..], id);
      if HasId(ps[1..], id) {
        var i :| 0 <= i < |ps[1..]| && ps[1..][i].id == id;
        assert ps[i + 1].id == id;
      }
      if HasId(ps, id) && ps[0].id != id {
        var i :| 0 <= i < |ps| && ps[i].id == id;
        assert ps[1..][i - 1].id == id;
      }
    }
  }

  // ------------------------------------------------------------- set active

  /** Every record's flag set to whether its id is the target; nothing else changes. */
  function Reflagged(ps: seq<Portfolio>, target: Option<string>): (r: seq<Portfolio>)
    ensures |r| == |ps|
    ensures forall i :: 0 <= i < |ps| ==> r[i].isActive == (target == Some(ps[i].id))
    ensures forall i :: 0 <= i < |ps| ==> r[i] == ps[i].(isActive := r[i].isActive)
  {
    seq(|ps|, i requires 0 <= i < |ps| => ps[i].(isActive := target == Some(ps[i].id)))
  }

  lemma {:induction false} ReflaggedCount(ps: seq<Portfolio>, target: Option<string>)
    ensures target.None? ==> ActiveCount(Reflagged(ps, target)) == 0
    ensures target.Some? ==> ActiveCount(Reflagged(ps, target)) == IdCount(ps, target.value)
  {
    if ps != [] {
      assert Reflagged(ps, target)[1..] == Reflagged(ps[1..], target);
      ReflaggedCount(ps[1..], target);
    }
  }

  /**
   * After setting `t` active, with unique ids, at most one record is active,
   * and exactly one is iff some record has id `t`.
   */
  lemma SetActiveExactlyOne(ps: seq<Portfolio>, t: string)
    requires UniqueIds(ps)
    ensures ActiveCount(Reflagged(ps, Some(t))) <= 1
    ensures ActiveCount(Reflagged(ps, Some(t))) == 1 <==> HasId(ps, t)
  {
    ReflaggedCount(ps, Some(t));
    IdCountPresence(ps, t);
  }

  /** Setting the same target twice gives what setting it once gives. */
  lemma ReflagIdempotent(ps: seq<Portfolio>, target: Option<string>)
    ensures Reflagged(Reflagged(ps, target), target) == Reflagged(ps, target)
  {
  }

  /** After setting `t` active, the active record is the first record with id `t`. */
  lemma {:induction false} ReflaggedActive(ps: seq<Portfolio>, t: string)
    ensures ActiveIndex(Reflagged(ps, Some(t))) == IdIndex(ps, t)
    ensures ActivePortfolio(Reflagged(ps, Some(t))).Some? <==> HasId(ps, t)
  {
    if ps != [] {
      assert Reflagged(ps, Some(t))[1..] == Reflagged(ps[1..], Some(t));
      ReflaggedActive(ps[1..], t);
    }
  }

  /** Re-deriving every flag keeps the registry invariant. */
  lemma ReflagWellformed(ps: seq<Portfolio>, target: Option<string>)
    requires UniqueIds(ps)
    ensures Wellformed(Reflagged(ps, target))
  {
    ReflaggedCount(ps, target);
    if target.Some? {
      IdCountPresence(ps, target.value);
    }
  }

  // ----------------------------------------------------------------- append

  lemma {:induction false} ActiveCountAppend(ps: seq<Portfolio>, q: Portfolio)
    ensures ActiveCount(ps + [q]) == ActiveCount(ps) + (if q.isActive then 1 else 0)
  {
    if ps != [] {
      assert (ps + [q])[1..] == ps[1..] + [q];
      ActiveCountAppend(ps[1..], q);
    }
  }

  /** Appending an inactive record leaves the first active record where it was. */
  lemma AppendKeepsActive(ps: seq<Portfolio>, q: Portfolio)
    requires !q.isActive
    ensures ActiveIndex(ps + [q]) == ActiveIndex(ps)
  {
    var qs := ps + [q];
    if ActiveIndex(ps).None? {
      forall i | 0 <= i < |qs| ensures !qs[i].isActive {
        if i < |ps| {
          assert qs[i] == ps[i];
        }
      }
    } else {
      var k := ActiveIndex(ps).value;
      assert qs[k] == ps[k];
    }
  }

  /** Appending a record leaves every lookup of an existing id as it was. */
  lemma AppendKeepsIds(ps: seq<Portfolio>, q: Portfolio, id: string)
    requires HasId(ps, id)
    ensures IdIndex(ps + [q], id) == IdIndex(ps, id)
  {
    var qs := ps + [q];
    var k := IdIndex(ps, id).value;
    assert qs[k] == ps[k];
  }

  /** Appending an inactive record under a fresh id keeps the registry invariant. */
  lemma AppendWellformed(ps: seq<Portfolio>, q: Portfolio)
    requires Wellformed(ps) && !q.isActive && !HasId(ps, q.id)
    ensures Wellformed(ps + [q])
  {
    ActiveCountAppend(ps, q);
    var qs := ps + [q];
    forall i, j | 0 <= i < j < |qs| ensures qs[i].id != qs[j].id {
      assert qs[i] == ps[i];
      if j < |ps| {
        assert qs[j] == ps[j];
      }
    }
  }

  // ----------------------------------------------------------------- update

  /** `update_portfolio` as the edit form calls it: the first record with the id gets the new name and description. */
  function Merged(ps: seq<Portfolio>, id: string, name: string, description: string): (r: seq<Portfolio>)
    ensures SameKeys(ps, r)
    ensures !HasId(ps, id) ==> r == ps
    ensures HasId(ps, id) ==> var k := IdIndex(ps, id).value;
              && r[k] == ps[k].(name := name, description := description, updatedAt := Stamp)
              && forall j :: 0 <= j < |ps| && j != k ==> r[j] == ps[j]
  {
    match IdIndex(ps, id)
    case None => ps
    case Some(k) => ps[k := ps[k].(name := name, description := description, updatedAt := Stamp)]
  }

  lemma MergedWellformed(ps: seq<Portfolio>, id: string, name: string, description: string)
    ensures Wellformed(Merged(ps, id, name, description)) == Wellformed(ps)
    ensures ActivePortfolio(Merged(ps, id, name, description)).Some? == ActivePortfolio(ps).Some?
  {
    SameKeysLookups(ps, Merged(ps, id, name, description));
  }

  // ----------------------------------------------------------------- delete

  /** `delete_portfolio`: the list without its first record with id `id`. */
  function RemoveFirst(ps: seq<Portfolio>, id: string): (r: seq<Portfolio>)
    ensures !HasId(ps, id) ==> r == ps
    ensures HasId(ps, id) ==> r == DeleteAt(ps, IdIndex(ps, id).value)
  {
    match IdIndex(ps, id)
    case None => ps
    case Some(k) => DeleteAt(ps, k)
  }

  lemma {:induction false} ActiveCountDelete(ps: seq<Portfolio>, k: nat)
    requires k < |ps|
    ensures ActiveCount(DeleteAt(ps, k)) == ActiveCount(ps) - (if ps[k].isActive then 1 else 0)
  {
    if k == 0 {
      assert DeleteAt(ps, k) == ps[1..];
    } else {
      assert DeleteAt(ps, k) == [ps[0]] + DeleteAt(ps[1..], k - 1);
      assert DeleteAt(ps, k)[1..] == DeleteAt(ps[1..], k - 1);
      ActiveCountDelete(ps[1..], k - 1);
    }
  }

  /** Deleting keeps the remaining records in order and the invariant. */
  lemma RemoveFirstWellformed(ps: seq<Portfolio>, id: string)
    requires Wellformed(ps)
    ensures Wellformed(RemoveFirst(ps, id))
    ensures HasId(ps, id) ==> |RemoveFirst(ps, id)| == |ps| - 1 && !HasId(RemoveFirst(ps, id), id)
  {
    if HasId(ps, id) {
      var k := IdIndex(ps, id).value;
      ActiveCountDelete(ps, k);
    }
  }

  /** A position holding an active record with none before it is the first active position. */
  lemma FirstActiveAt(ps: seq<Portfolio>, a: nat)
    requires a < |ps| && ps[a].isActive
    requires forall j :: 0 <= j < a ==> !ps[j].isActive
    ensures ActiveIndex(ps) == Some(a)
  {
  }

  /** Where the first active record sits once an inactive record at `k` is deleted. */
  lemma ActiveIndexDelete(ps: seq<Portfolio>, k: nat)
    requires k < |ps| && !ps[k].isActive
    ensures ActiveIndex(ps).None? ==> ActiveIndex(DeleteAt(ps, k)).None?
    ensures ActiveIndex(ps).Some? && ActiveIndex(ps).value < k ==> ActiveIndex(DeleteAt(ps, k)) == ActiveIndex(ps)
    ensures ActiveIndex(ps).Some? && ActiveIndex(ps).value > k ==>
              ActiveIndex(DeleteAt(ps, k)).Some? && ActiveIndex(DeleteAt(ps, k)).value == ActiveIndex(ps).value - 1
  {
    match ActiveIndex(ps)
    case None => NoActiveAfterDelete(ps, k);
    case Some(a) =>
      if a < k {
        FirstActiveAt(DeleteAt(ps, k), a);
      } else {
        ActiveAfterDelete(ps, k, a);
      }
  }

  /** The step of `ActiveIndexDelete` where no record is active. */
  lemma NoActiveAfterDelete(ps: seq<Portfolio>, k: nat)
    requires k < |ps| && forall i :: 0 <= i < |ps| ==> !ps[i].isActive
    ensures ActiveIndex(DeleteAt(ps, k)).None?
  {
    var r := DeleteAt(ps, k);
    forall i | 0 <= i < |r| ensures !r[i].isActive {
      if i >= k {
        assert r[i] == ps[i + 1];
      }
    }
  }

  /** The step of `ActiveIndexDelete` where the first active record lies after the deleted one. */
  lemma ActiveAfterDelete(ps: seq<Portfolio>, k: nat, a: nat)
    requires k < a < |ps| && ps[a].isActive
    requires forall j :: 0 <= j < a ==> !ps[j].isActive
    ensures ActiveIndex(DeleteAt(ps, k)) == Some(a - 1)
  {
    var r := DeleteAt(ps, k);
    assert r[a - 1] == ps[a];
    forall j | 0 <= j < a - 1 ensures !r[j].isActive {
      if j >= k {
        assert r[j] == ps[j + 1];
      }
    }
    FirstActiveAt(r, a - 1);
  }

  /** Deleting a record that is not the active one leaves the active record as it was. */
  lemma RemoveInactiveKeepsActive(ps: seq<Portfolio>, id: string)
    requires PortfolioById(ps, id).None? || !PortfolioById(ps, id).value.isActive
    ensures ActivePortfolio(RemoveFirst(ps, id)) == ActivePortfolio(ps)
  {
    if HasId(ps, id) {
      var k := IdIndex(ps, id).value;
      ActiveIndexDelete(ps, k);
    }
  }

  // ---------------------------------------------------------- edit target

  /**
   * The content an admin section edits: the first active record's, or the
   * legacy top-level content when no record is active.
   */
  function Target(ps: seq<Portfolio>, legacy: Content): (c: Content)
    ensures ActivePortfolio(ps).Some? ==> c == ActivePortfolio(ps).value.content
    ensures ActivePortfolio(ps).None? ==> c == legacy
  {
    match ActiveIndex(ps)
    case None => legacy
    case Some(k) => ps[k].content
  }

  /** The registry and legacy content after the edited content `c` is written back to the target. */
  function Retarget(ps: seq<Portfolio>, legacy: Content, c: Content): (r: (seq<Portfolio>, Content))
    ensures SameKeys(ps, r.0)
    ensures ActiveIndex(ps).None? ==> r.0 == ps && r.1 == c
    ensures ActiveIndex(ps).Some? ==>
      var k := ActiveIndex(ps).value;
      && r.1 == legacy
      && |r.0| == |ps| && r.0[k] == ps[k].(content := c)
      && forall j :: 0 <= j < |ps| && j != k ==> r.0[j] == ps[j]
  {
    match ActiveIndex(ps)
    case None => (ps, c)
    case Some(k) => (ps[k := ps[k].(content := c)], legacy)
  }

  /** Writing back changes only the target: reading it back gives what was written. */
  lemma TargetRetarget(ps: seq<Portfolio>, legacy: Content, c: Content)
    ensures Target(Retarget(ps, legacy, c).0, Retarget(ps, legacy, c).1) == c
    ensures Wellformed(Retarget(ps, legacy, c).0) == Wellformed(ps)
  {
    SameKeysLookups(ps, Retarget(ps, legacy, c).0);
  }

  /** Writing back the target as it is changes nothing. */
  lemma RetargetTarget(ps: seq<Portfolio>, legacy: Content)
    ensures Retarget(ps, legacy, Target(ps, legacy)) == (ps, legacy)
  {
    match ActiveIndex(ps)
    case None =>
    case Some(k) => assert ps[k := ps[k].(content := ps[k].content)] == ps;
  }
}
