/** withRetry of scripts/migrate-database.mjs around one put and around one read. */
module Retry {
  import opened Prelude
  import opened CopyMachine
  import opened CopySchedule

  function Pow2(n: nat): nat {
    if n == 0 then 1 else 2 * Pow2(n - 1)
  }

  /** The target database. */
  class Database {
    var docs: map<Path, Text>

    constructor (docs: map<Path, Text>)
      ensures this.docs == docs
    {
      this.docs := docs;
    }
  }

  /** The answers after a first success are never asked for. */
  lemma LandsByFirstSuccess(puts: seq<PutAnswer>, k: nat)
    requires k < |puts| && puts[k].resolved && puts[k].applied
    ensures Lands(puts) && Lands(puts[..k + 1]) && Resolves(puts)
  {
    assert puts[..k + 1][k].applied;
  }

  /** Writes text t to path p, at most `attempts` times; `puts[k]` is what the target makes of call
      k + 1. The put is at least once: a call that failed may have taken effect. Whatever happened, a
      success leaves exactly t at p, a failure leaves the old body or t, no other path changes, and a
      call is followed by another only if it failed. The waits double from 200 ms, and there is none
      after the last call. */
  method PutWithRetry(db: Database, p: Path, t: Text, attempts: nat, puts: seq<PutAnswer>)
    returns (ok: bool, calls: nat, slept: nat)
    requires |puts| == attempts && forall k :: 0 <= k < |puts| && puts[k].resolved ==> puts[k].applied
    modifies db
    ensures ok <==> Resolves(puts)
    ensures db.docs == if Lands(puts) then old(db.docs)[p := t] else old(db.docs)
    ensures ok ==> Lookup(db.docs, p) == Some(t)
    ensures !ok ==> Lookup(db.docs, p) == Some(t) || db.docs == old(db.docs)
    ensures calls <= attempts && (ok ==> calls >= 1 && puts[calls - 1].resolved) && (!ok ==> calls == attempts)
    ensures forall k :: 0 <= k < calls - (if ok then 1 else 0) ==> !puts[k].resolved
    ensures calls > 0 ==> slept == 200 * (Pow2(calls - 1) - 1)
  {
    ok, calls, slept := false, 0, 0;
    while calls < attempts
      invariant calls <= attempts && !ok
      invariant !Resolves(puts[..calls])
      invariant db.docs == if Lands(puts[..calls]) then old(db.docs)[p := t] else old(db.docs)
      invariant slept == if calls == 0 || calls < attempts then 200 * (Pow2(calls) - 1) else 200 * (Pow2(calls - 1) - 1)
    {
      calls := calls + 1;
      PutsStep(puts, calls - 1);
      if puts[calls - 1].applied {
        db.docs := db.docs[p := t];
      }
      if puts[calls - 1].resolved {
        ok := true;
        LandsByFirstSuccess(puts, calls - 1);
        return;
      }
      if calls < attempts {
        slept := slept + 200 * Pow2(calls - 1);
      }
    }
    assert puts[..attempts] == puts;
  }

  /** Reads with the same loop: the result is the first answer that is not an error. */
  method ReadWithRetry(attempts: nat, gets: seq<ReadAnswer>) returns (answer: ReadAnswer, calls: nat)
    requires |gets| == attempts
    ensures answer == FirstRead(gets)
    ensures calls <= attempts
    ensures answer.GotError? ==> calls == attempts
    ensures !answer.GotError? ==> calls >= 1 && gets[calls - 1] == answer
    ensures forall k :: 0 <= k < calls - 1 ==> gets[k].GotError?
  {
    calls := 0;
    assert gets[0..] == gets;
    while calls < attempts
      invariant calls <= attempts
      invariant FirstRead(gets) == FirstRead(gets[calls..])
      invariant forall k :: 0 <= k < calls ==> gets[k].GotError?
    {
      calls := calls + 1;
      FirstReadStep(gets, calls - 1);
      if !gets[calls - 1].GotError? {
        answer := gets[calls - 1];
        return;
      }
    }
    answer := GotError;
  }
}
