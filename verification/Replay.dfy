/** The bounded nonce guard (src/replay.rs) and the admin verification that feeds it (src/admin_v2.rs). */
module Replay {
  import opened Common
  import opened PolicyModel

  const MAX_SEEN_NONCES: nat := 10_000

  datatype ReplayError = Empty | Replayed

  /** The nonces still remembered after a history of accepted ones: the last 10,000. */
  function Window(accepted: seq<string>): (w: seq<string>)
    ensures |w| == (if |accepted| < 10_000 then |accepted| else 10_000) && w == accepted[|accepted| - |w|..]
  {
    if |accepted| <= MAX_SEEN_NONCES then accepted else accepted[|accepted| - MAX_SEEN_NONCES..]
  }

  predicate Accepts(accepted: seq<string>, nonce: string) {
    nonce != "" && nonce !in Window(accepted)
  }

  predicate NoRepeats(xs: seq<string>) {
    forall i, j :: 0 <= i < j < |xs| ==> xs[i] != xs[j]
  }

  class ReplayGuard {
    var seen: set<string>
    var order: seq<string>
    /** Every nonce ever accepted, oldest first. */
    ghost var accepted: seq<string>

    ghost predicate Valid()
      reads this
    {
      && order == Window(accepted)
      && seen == ToSet(order)
      && NoRepeats(order)
    }

    constructor ()
      ensures Valid() && accepted == []
    {
      seen, order := {}, [];
      accepted := [];
    }

    /** Forgets the oldest nonces beyond the limit. */
    method Evict()
      requires NoRepeats(order) && seen == ToSet(order)
      modifies this`seen, this`order
      ensures order == Window(old(order)) && seen == ToSet(order)
    {
      ghost var full := order;
      while |order| > MAX_SEEN_NONCES
        invariant |order| <= |full| && order == full[|full| - |order|..]
        invariant |order| >= MAX_SEEN_NONCES || order == full
        invariant seen == ToSet(order)
      {
        var oldest := order[0];
        assert order == [oldest] + order[1..];
        assert oldest !in order[1..];
        order := order[1..];
        seen := seen - {oldest};
      }
    }

    /** Registers a nonce unless it is empty or remembered. */
    method CheckAndInsert(nonce: string) returns (r: Result<(), ReplayError>)
      requires Valid()
      modifies this
      ensures Valid()
      ensures r.Ok? <==> Accepts(old(accepted), nonce)
      ensures r.Err? ==> (r.error == Empty <==> nonce == "")
      ensures accepted == if r.Ok? then old(accepted) + [nonce] else old(accepted)
    {
      if nonce == "" { return Err(Empty); }
      if nonce in seen { return Err(Replayed); }
      seen := seen + {nonce};
      order := order + [nonce];
      WindowSlides(accepted, nonce);
      Evict();
      accepted := accepted + [nonce];
      return Ok(());
    }
  }

  /** Appending to the window and cutting it again is the window of the longer history, still without repeats. */
  lemma WindowSlides(accepted: seq<string>, nonce: string)
    requires NoRepeats(Window(accepted)) && nonce !in Window(accepted)
    ensures NoRepeats(Window(accepted) + [nonce])
    ensures Window(Window(accepted) + [nonce]) == Window(accepted + [nonce])
    ensures NoRepeats(Window(accepted + [nonce]))
    ensures ToSet(Window(accepted) + [nonce]) == ToSet(Window(accepted)) + {nonce}
  {
    WindowOfWindow(accepted, nonce);
    AppendNoRepeats(Window(accepted), nonce);
    WindowNoRepeats(Window(accepted) + [nonce]);
  }

  lemma WindowOfWindow(a: seq<string>, nonce: string)
    ensures Window(Window(a) + [nonce]) == Window(a + [nonce])
  {
    if |a| > MAX_SEEN_NONCES {
      var k := |a| - MAX_SEEN_NONCES;
      assert (a + [nonce])[k + 1..] == (a[k..] + [nonce])[1..];
    }
  }

  lemma AppendNoRepeats(xs: seq<string>, x: string)
    requires NoRepeats(xs) && x !in xs
    ensures NoRepeats(xs + [x])
    ensures ToSet(xs + [x]) == ToSet(xs) + {x}
  {}

  lemma WindowNoRepeats(xs: seq<string>)
    requires NoRepeats(xs)
    ensures NoRepeats(Window(xs))
  {}

  // ---------------------------------------------------------------- over a whole run

  /** The nonces accepted from a sequence of calls. */
  function AcceptedFrom(calls: seq<string>): seq<string> {
    if calls == [] then [] else
      var h := AcceptedFrom(calls[..|calls| - 1]);
      var nonce := calls[|calls| - 1];
      if Accepts(h, nonce) then h + [nonce] else h
  }

  /**
   Over any run of calls, two acceptances of one nonce are at least 10,000 other acceptances apart; in
   particular the remembered nonces never repeat and none is empty.
   */
  lemma {:induction false} ReacceptedOnlyAfterWindow(calls: seq<string>, i: nat, j: nat)
    requires i < j < |AcceptedFrom(calls)| && AcceptedFrom(calls)[i] == AcceptedFrom(calls)[j]
    ensures j - i > MAX_SEEN_NONCES
    ensures AcceptedFrom(calls)[i] != ""
  {
    var h := AcceptedFrom(calls[..|calls| - 1]);
    if j < |h| {
      ReacceptedOnlyAfterWindow(calls[..|calls| - 1], i, j);
    } else {
      assert Accepts(h, calls[|calls| - 1]);
      RecentInWindow(h, i);
    }
  }

  lemma RecentInWindow(h: seq<string>, i: nat)
    requires i < |h|
    ensures |h| - i <= MAX_SEEN_NONCES ==> h[i] in Window(h)
  {
    if |h| - i <= MAX_SEEN_NONCES < |h| {
      assert Window(h)[i - (|h| - MAX_SEEN_NONCES)] == h[i];
    }
  }

  // ---------------------------------------------------------------- admin verification

  const ADMIN_REQUEST_VERSION: nat := 2
  const ADMIN_MAX_TS_SKEW_SECS: nat := 300
  const ADMIN_MAX_NONCE_LEN: nat := 64
  const ADMIN_MAX_REQUEST_ID_LEN: nat := 128

  datatype AdminError = BadRequest | UnknownKey | BadSignature | ExpiredTimestamp | ReplayedNonce

  /** Length in bytes of the UTF-8 encoding. */
  function Utf8Len(s: string): nat {
    if s == [] then 0 else
      var n := s[|s| - 1] as int;
      Utf8Len(s[..|s| - 1]) + if n < 0x80 then 1 else if n < 0x800 then 2 else if n < 0x1_0000 then 3 else 4
  }

  /** The parts of a request the checks look at; whether its signature verifies under its key is given. */
  datatype Checked = Checked(v: nat, kid: string, requestId: string, nonce: string, ts: u64, keyKnown: bool,
      signatureOk: bool)

  predicate WellShaped(q: Checked) {
    && q.v == ADMIN_REQUEST_VERSION && !Blank(q.kid) && !Blank(q.requestId)
    && Utf8Len(q.requestId) <= ADMIN_MAX_REQUEST_ID_LEN
    && q.nonce != "" && Utf8Len(q.nonce) <= ADMIN_MAX_NONCE_LEN
  }

  predicate InTime(q: Checked, now: u64) {
    (if now > q.ts then now - q.ts else q.ts - now) <= ADMIN_MAX_TS_SKEW_SECS
  }

  /**
   Checks shape, key, signature and time before the nonce: a request refused for any reason leaves the
   remembered nonces as they were, and an accepted one adds exactly its own.
   */
  method VerifyAdmin(guard: ReplayGuard, q: Checked, now: u64) returns (r: Result<(), AdminError>)
    requires guard.Valid()
    modifies guard
    ensures guard.Valid()
    ensures r.Ok? <==>
      WellShaped(q) && q.keyKnown && q.signatureOk && InTime(q, now) && Accepts(old(guard.accepted), q.nonce)
    ensures r == Err(ReplayedNonce) <==>
              WellShaped(q) && q.keyKnown && q.signatureOk && InTime(q, now) && !Accepts(old(guard.accepted), q.nonce)
    ensures guard.accepted == if r.Ok? then old(guard.accepted) + [q.nonce] else old(guard.accepted)
    ensures r == Err(BadRequest) <==>
              || q.v != 2
              || (forall c :: c in q.kid ==> IsSpace(c))
              || (forall c :: c in q.requestId ==> IsSpace(c))
              || Utf8Len(q.requestId) > 128
              || |q.nonce| == 0 || Utf8Len(q.nonce) > 64
    ensures r == Err(UnknownKey) <==> WellShaped(q) && !q.keyKnown
    ensures r == Err(BadSignature) <==> WellShaped(q) && q.keyKnown && !q.signatureOk
    ensures r == Err(ExpiredTimestamp) <==>
              && WellShaped(q) && q.keyKnown && q.signatureOk
              && (q.ts + 300 < now || now + 300 < q.ts)
  {
    if q.v != ADMIN_REQUEST_VERSION { return Err(BadRequest); }
    if Blank(q.kid) { return Err(BadRequest); }
    if Blank(q.requestId) { return Err(BadRequest); }
    if Utf8Len(q.requestId) > ADMIN_MAX_REQUEST_ID_LEN { return Err(BadRequest); }
    if q.nonce == "" { return Err(BadRequest); }
    if Utf8Len(q.nonce) > ADMIN_MAX_NONCE_LEN { return Err(BadRequest); }
    if !q.keyKnown { return Err(UnknownKey); }
    if !q.signatureOk { return Err(BadSignature); }
    if !InTime(q, now) { return Err(ExpiredTimestamp); }
    var fresh' := guard.CheckAndInsert(q.nonce);
    if fresh'.Err? { return Err(if fresh'.error == Empty then BadRequest else ReplayedNonce); }
    return Ok(());
  }
}
