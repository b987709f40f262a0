/** The grant table of one receive window: `Sessions` of src/airdrop/mod.rs. */
module Sessions {
  import opened Bytes
  import opened AuthLog

  const MAX_GRANTS: nat := 128

  type Grants = map<Address, nat>

  /** A grant entered at `time` still counts at `now`. */
  predicate Fresh(time: nat, now: nat) {
    now < time + GRANT_LIFE
  }

  /** What `retain` keeps. */
  function Retained(grants: Grants, now: nat): (r: Grants) {
    map ip | ip in grants && Fresh(grants[ip], now) :: grants[ip]
  }

  /** Entering a grant; the table is full when 128 grants, the peer's own included, are still fresh. */
  function Enter(grants: Grants, peer: Address, now: nat): (r: Result<Grants, Grants>) {
    var kept := Retained(grants, now);
    if |kept| < MAX_GRANTS then Ok(kept[peer := now]) else Err(kept)
  }

  predicate Authorized(grants: Grants, peer: Address, now: nat) {
    peer in grants && Fresh(grants[peer], now)
  }

  lemma RetainedIsSmaller(grants: Grants, now: nat)
    ensures |Retained(grants, now)| <= |grants|
    decreases |grants|
  {
    SubsetSize(Retained(grants, now).Keys, grants.Keys);
  }

  class Sessions {
    var approved: Grants

    constructor ()
      ensures approved == map[]
    {
      approved := map[];
    }

    /** The gate of an Upload: the peer's grant is taken out, whether it is fresh or not. */
    method Authorize(peer: Address, now: nat) returns (ok: bool)
      modifies this
      ensures approved == old(approved) - {peer}
      ensures ok <==> Authorized(old(approved), peer, now)
    {
      ok := false;
      if peer in approved {
        ok := now < approved[peer] + GRANT_LIFE;
        approved := approved - {peer};
      }
    }

    /** After an accepted file Ask. */
    method Grant(peer: Address, now: nat) returns (ok: bool)
      modifies this
      ensures ok <==> Enter(old(approved), peer, now).Ok?
      ensures approved == if ok then Enter(old(approved), peer, now).value else Enter(old(approved), peer, now).error
      ensures ok ==> Authorized(approved, peer, now)
      ensures |old(approved)| <= MAX_GRANTS ==> |approved| <= MAX_GRANTS
    {
      RetainedIsSmaller(approved, now);
      approved := map ip | ip in approved && now < approved[ip] + GRANT_LIFE :: approved[ip];
      assert approved == Retained(old(approved), now);
      ok := |approved| < MAX_GRANTS;
      if ok {
        approved := approved[peer := now];
      }
    }
  }

  /** One grant serves one Upload, and only from the address it was entered for. */
  method GrantServesOnce(s: Sessions, peer: Address, other: Address, entered: nat, first: nat, second: nat)
    returns (granted: bool, a: bool, b: bool, c: bool)
    requires entered <= first <= second && peer != other
    modifies s
    ensures granted ==> (a <==> first - entered < GRANT_LIFE) && !b
    ensures c <==> Authorized(old(s.approved), other, entered) && Authorized(old(s.approved), other, second)
  {
    granted := s.Grant(peer, entered);
    a := s.Authorize(peer, first);
    b := s.Authorize(peer, second);
    c := s.Authorize(other, second);
  }
}
