/**
 * The resource ledger: stock rows keyed by resource id, credited by donations
 * and debited by aid-preparation usage. Quantities are unbounded integers;
 * nothing in the source forbids a negative stored quantity (an admin update
 * may write one), so non-negativity is a property of the debit path, not an
 * invariant of the table.
 */
module Ledger {
  import opened Wrappers
  import opened Entities
  import Text

  /** Row `id` is of `center` and its type equals `resourceType` character for character. */
  predicate ExactMatch(rs: map<int, Resource>, id: int, center: int, resourceType: string) {
    id in rs && rs[id].centerId == center && rs[id].resourceType == resourceType
  }

  /** Some row of `center` has exactly the type `resourceType`. */
  ghost predicate HasExactMatch(rs: map<int, Resource>, center: int, resourceType: string) {
    exists id :: ExactMatch(rs, id, center, resourceType)
  }

  /**
   * The donation credit, as a relation between the stock before and after:
   * the row `id` of `center` with exactly the type `resourceType` gains
   * `amount`; when there is no such row, a new row `newId` without further
   * checks holds `amount`.
   */
  ghost predicate Credited(before: map<int, Resource>, after: map<int, Resource>, id: int, newId: int,
                           center: int, resourceType: string, amount: int, expiry: Option<Time>)
  {
    if HasExactMatch(before, center, resourceType)
    then ExactMatch(before, id, center, resourceType) && after == CreditResource(before, id, amount)
    else id == newId && after == before[id := Resource(resourceType, amount, expiry, center)]
  }

  /**
   * The admin duplicate check: a row of `center` (other than `exclude`) whose
   * lower-cased type equals the trimmed, lower-cased requested type. The stored
   * type is lower-cased but not trimmed.
   */
  predicate DuplicateType(rs: map<int, Resource>, center: int, requested: string, exclude: Option<int>) {
    exists id :: id in rs && exclude != Some(id) && rs[id].centerId == center
      && Text.Lower(rs[id].resourceType) == Text.Normalize(requested)
  }

  /** `amount` added to the stock of row `id`. */
  function CreditResource(rs: map<int, Resource>, id: int, amount: int): (r: map<int, Resource>)
    requires id in rs
    ensures r.Keys == rs.Keys
    ensures r[id].quantity == rs[id].quantity + amount
    ensures r[id] == rs[id].(quantity := r[id].quantity)
    ensures forall k :: k in rs && k != id ==> r[k] == rs[k]
  {
    rs[id := rs[id].(quantity := rs[id].quantity + amount)]
  }

  /**
   * The check-then-decrement of a usage: unknown row, stock below the amount,
   * or the row with `amount` taken off.
   */
  function DebitResource(rs: map<int, Resource>, id: int, amount: int): (r: Result<map<int, Resource>, Error>)
    ensures r == Err(ResourceNotFound) <==> id !in rs
    ensures r == Err(NotEnoughResource) <==> id in rs && rs[id].quantity < amount
    ensures r.Ok? <==> id in rs && amount <= rs[id].quantity
    ensures r.Ok? ==>
      && r.value.Keys == rs.Keys
      && r.value[id] == rs[id].(quantity := rs[id].quantity - amount)
      && r.value[id].quantity >= 0
      && (forall k :: k in rs && k != id ==> r.value[k] == rs[k])
  {
    if id !in rs then Err(ResourceNotFound)
    else if rs[id].quantity < amount then Err(NotEnoughResource)
    else Ok(rs[id := rs[id].(quantity := rs[id].quantity - amount)])
  }

  /** Crediting x and then debiting x restores the table, provided the stock was not negative. */
  lemma CreditThenDebitRestores(rs: map<int, Resource>, id: int, x: int)
    requires id in rs && rs[id].quantity >= 0
    ensures DebitResource(CreditResource(rs, id, x), id, x) == Ok(rs)
  {
    var credited := CreditResource(rs, id, x);
    var r := DebitResource(credited, id, x);
    assert r.Ok?;
    assert r.value[id] == rs[id];
    assert r.value == rs;
  }

  /** Taking exactly the stock succeeds and leaves 0; one more is refused and leaves the stock. */
  lemma DebitBoundary(rs: map<int, Resource>, id: int)
    requires id in rs
    ensures DebitResource(rs, id, rs[id].quantity).Ok?
    ensures DebitResource(rs, id, rs[id].quantity).value[id].quantity == 0
    ensures DebitResource(rs, id, rs[id].quantity + 1) == Err(NotEnoughResource)
  {
  }

  /**
   * The donation path matches types exactly while the admin path folds case:
   * a row whose type differs from the donated type, even only in case, is
   * left as it is by the credit, although the admin path counts it as a
   * duplicate of that type.
   */
  lemma CaseSplitsDonationRows(before: map<int, Resource>, after: map<int, Resource>, id: int, newId: int,
                               center: int, resourceType: string, amount: int, expiry: Option<Time>, k: int)
    requires Credited(before, after, id, newId, center, resourceType, amount, expiry) && newId !in before
    requires k in before && before[k].resourceType != resourceType
    ensures k in after && after[k] == before[k]
    ensures before[k].centerId == center && Text.Lower(before[k].resourceType) == Text.Normalize(resourceType)
            ==> DuplicateType(before, center, resourceType, None)
  {
    if HasExactMatch(before, center, resourceType) {
      assert k != id;
    }
  }

  // A history of stock movements on one resource, as the services apply them.

  datatype Movement = Credit(amount: int) | Debit(amount: int)

  /** One movement: a credit always applies; a debit above the stock is refused and changes nothing. */
  function Step(quantity: int, m: Movement): int {
    match m
    case Credit(a) => quantity + a
    case Debit(a) => if a <= quantity then quantity - a else quantity
  }

  function Replay(quantity: int, ms: seq<Movement>): int
    decreases |ms|
  {
    if ms == [] then quantity else Replay(Step(quantity, ms[0]), ms[1..])
  }

  /** No debit of the history is refused. */
  predicate AllAccepted(quantity: int, ms: seq<Movement>)
    decreases |ms|
  {
    ms == [] ||
    ((ms[0].Debit? ==> ms[0].amount <= quantity) && AllAccepted(Step(quantity, ms[0]), ms[1..]))
  }

  predicate CreditsNonNegative(ms: seq<Movement>) {
    forall i :: 0 <= i < |ms| && ms[i].Credit? ==> ms[i].amount >= 0
  }

  function Net(ms: seq<Movement>): int
    decreases |ms|
  {
    if ms == [] then 0
    else (match ms[0] case Credit(a) => a case Debit(a) => -a) + Net(ms[1..])
  }

  /** Stock that starts non-negative and only receives non-negative credits never goes negative. */
  lemma {:induction false} ReplayNonNegative(quantity: int, ms: seq<Movement>)
    requires quantity >= 0 && CreditsNonNegative(ms)
    ensures Replay(quantity, ms) >= 0
    decreases |ms|
  {
    if ms != [] {
      assert CreditsNonNegative(ms[1..]) by {
        forall i | 0 <= i < |ms[1..]| && ms[1..][i].Credit?
          ensures ms[1..][i].amount >= 0
        {
          assert ms[1..][i] == ms[i + 1];
        }
      }
      ReplayNonNegative(Step(quantity, ms[0]), ms[1..]);
    }
  }

  /** When no debit is refused, the final stock is the initial stock plus credits minus debits. */
  lemma {:induction false} ReplayConserves(quantity: int, ms: seq<Movement>)
    requires AllAccepted(quantity, ms)
    ensures Replay(quantity, ms) == quantity + Net(ms)
    decreases |ms|
  {
    if ms != [] {
      ReplayConserves(Step(quantity, ms[0]), ms[1..]);
    }
  }

  /** The map-level debit moves the row's quantity exactly as one Debit step. */
  lemma DebitIsStep(rs: map<int, Resource>, id: int, amount: int)
    requires id in rs
    ensures var r := DebitResource(rs, id, amount);
      Step(rs[id].quantity, Debit(amount)) == if r.Ok? then r.value[id].quantity else rs[id].quantity
  {
  }
}
