/** SessionLeaseStore of goar_vibe_core.py: one stored record per session, taken and given
    back under a lock, so that every call is one step. */
module LeaseStore {
  import opened Common

  datatype Lease = Lease(owner: string, expiresAt: real)

  const MIN_TTL: int := 30

  class SessionLeaseStore {
    var records: map<string, Lease>
    /** The clock. */
    var now: real

    /** For each session and owner the expiry of the latest grant that was not released. */
    ghost var grants: map<(string, string), real>

    ghost predicate Holds(session: string, owner: string)
      reads this
    {
      (session, owner) in grants && grants[(session, owner)] > now
    }

    /** Whoever holds a lease under a proper name is the owner on record. */
    ghost predicate Valid()
      reads this
    {
      forall session, owner :: Holds(session, owner) && owner != "" ==>
        session in records && records[session] == Lease(owner, grants[(session, owner)])
    }

    constructor (now: real)
      ensures Valid() && records == map[] && grants == map[] && this.now == now
    {
      this.now := now;
      records, grants := map[], map[];
    }

    method TimePasses(later: real)
      requires Valid() && later >= now
      modifies `now
      ensures Valid() && now == later
    {
      now := later;
    }

    method Acquire(session: string, owner: string, ttlSeconds: int) returns (granted: bool, lease: Lease)
      requires Valid()
      modifies `records, `grants
      ensures Valid()
      ensures granted <==> session !in old(records) || old(records)[session].owner in {"", owner}
                           || old(records)[session].expiresAt <= now
      ensures granted ==> lease == Lease(owner, now + Max(MIN_TTL, ttlSeconds) as real)
      ensures granted ==>
                && records == old(records)[session := lease]
                && grants == old(grants)[(session, owner) := lease.expiresAt]
      ensures !granted ==> records == old(records) && grants == old(grants) && lease == records[session]
    {
      var current := if session in records then records[session] else Lease("", 0.0);
      if current.owner != "" && current.owner != owner && current.expiresAt > now {
        return false, current;
      }
      lease := Lease(owner, now + Max(MIN_TTL, ttlSeconds) as real);
      records := records[session := lease];
      grants := grants[(session, owner) := lease.expiresAt];
      granted := true;
    }

    method Release(session: string, owner: string)
      requires Valid()
      modifies `records, `grants
      ensures Valid()
      ensures grants == old(grants) - {(session, owner)}
      ensures records == if session in old(records) && old(records)[session].owner == owner
                         then old(records) - {session} else old(records)
    {
      grants := grants - {(session, owner)};
      if session in records && records[session].owner == owner {
        records := records - {session};
      }
    }

    /** Main result: in every reachable state at most one properly named owner holds a session. */
    lemma Exclusion(session: string, a: string, b: string)
      requires Valid() && Holds(session, a) && Holds(session, b) && a != "" && b != ""
      ensures a == b
    {
      assert records[session].owner == a;
    }
  }

  /** The name matters: a lease taken under the empty name does not keep others out. */
  method EmptyNameIsTaken(owner: string) returns (both: bool)
    requires owner != ""
    ensures both
  {
    var store := new SessionLeaseStore(0.0);
    var first, lease := store.Acquire("s", "", 60);
    var second, lease' := store.Acquire("s", owner, 60);
    assert store.Holds("s", "") && store.Holds("s", owner);
    both := first && second;
  }
}
