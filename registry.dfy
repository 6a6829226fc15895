/**
 * The portfolio-name to identifier dictionary (`portfolio_uuid_map`). Python's
 * `uuid.uuid4()` is modelled as an oracle that hands out a fresh identifier on
 * every call: a counter, so identifiers are distinct and never reused.
 */
module Registry {

  type Uuid = nat

  class IdRegistry {
    /** The dictionary from portfolio name to identifier. */
    var ids: map<string, Uuid>
    /** The identifier the oracle will hand out next. */
    var next: Uuid

    /** Every identifier came from the oracle, and no two names share one. */
    ghost predicate Valid()
      reads this
    {
      (forall n :: n in ids ==> ids[n] < next)
      && (forall a, b :: a in ids && b in ids && a != b ==> ids[a] != ids[b])
    }

    /** An empty dictionary (`{}`); the oracle starts at `first`. */
    constructor (first: Uuid)
      ensures ids == map[] && next == first
      ensures Valid()
    {
      ids := map[];
      next := first;
    }

    /** `d[name] = str(uuid.uuid4())`: a fresh identifier, replacing any earlier one. */
    method Mint(name: string) returns (id: Uuid)
      requires Valid()
      modifies this
      ensures Valid()
      ensures id == old(next) && next == old(next) + 1
      ensures ids == old(ids)[name := id]
    {
      id := next;
      ids := ids[name := id];
      next := next + 1;
    }

    /** `if name not in d: d[name] = str(uuid.uuid4())`, then `d[name]`: an existing
        entry is returned unchanged, a new name gets a fresh identifier. */
    method ResolveOrCreate(name: string) returns (id: Uuid)
      requires Valid()
      modifies this
      ensures Valid()
      ensures name in old(ids) ==> id == old(ids)[name] && ids == old(ids) && next == old(next)
      ensures name !in old(ids) ==> id == old(next) && ids == old(ids)[name := id] && next == old(next) + 1
    {
      if name !in ids {
        id := Mint(name);
      } else {
        id := ids[name];
      }
    }
  }
}
