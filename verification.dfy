/** The email-verification code store: which rows a submitted code can match,
    when a matched row has expired, and the three ways the handlers change
    the table (issue a row, consume a row, backfill `user_id`). */
module Verification {
  import opened Wrappers
  import opened Schema

  /** `5 * 60 * 1000`: the lifetime of a code, identical at all three call sites. */
  const CodeLifetimeMs: int := 5 * 60 * 1000

  /** The `where: { email, code, verified: 'N' }` filter of every code lookup. */
  predicate IsPending(r: CodeRecord, email: string, code: string)
  {
    r.email == email && r.code == code && r.verified == N
  }

  /** The rejection test `now - sent_at > 5 * 60 * 1000`. */
  predicate Expired(r: CodeRecord, now: int)
  {
    now - r.sentAt > CodeLifetimeMs
  }

  /** A row carries a verification time exactly when it is verified. */
  predicate WellFormed(r: CodeRecord)
  {
    r.verified == Y <==> r.verifiedAt.Some?
  }

  /** The positions of all rows a lookup for (email, code) may return. */
  function Pending(codes: seq<CodeRecord>, email: string, code: string): set<nat>
  {
    set i: nat | i < |codes| && IsPending(codes[i], email, code)
  }

  /** Row `i` is a lookup result that a validation accepts at time `now`. */
  predicate Admits(codes: seq<CodeRecord>, i: nat, email: string, code: string, now: int)
  {
    i < |codes| && IsPending(codes[i], email, code) && !Expired(codes[i], now)
  }

  /** Row `i` is a result of the lookup ordered by `sent_at` descending. */
  predicate IsNewestPending(codes: seq<CodeRecord>, i: nat, email: string, code: string)
  {
    && i < |codes|
    && IsPending(codes[i], email, code)
    && forall j :: 0 <= j < |codes| && IsPending(codes[j], email, code) ==> codes[j].sentAt <= codes[i].sentAt
  }

  /** `Math.floor(100000 + Math.random() * 900000).toString()`: six decimal
      digits, the first of them not zero. */
  predicate IsSixDigitCode(code: string)
  {
    && |code| == 6
    && '1' <= code[0] <= '9'
    && forall k :: 1 <= k < 6 ==> '0' <= code[k] <= '9'
  }

  /** The row `EmailVerification.create` inserts when a code is sent. */
  function Issued(email: string, code: string, now: int, uid: nat): (r: CodeRecord)
    ensures IsPending(r, email, code) && !Expired(r, now) && WellFormed(r)
  {
    CodeRecord(email, code, now, N, None, Some(uid))
  }

  /** `record.update({ verified: 'Y', verified_at: now })` on row `i`. */
  function Consume(codes: seq<CodeRecord>, i: nat, now: int): (r: seq<CodeRecord>)
    requires i < |codes|
    ensures |r| == |codes|
    ensures r[i].verified == Y && r[i].verifiedAt == Some(now)
    ensures r[i].email == codes[i].email && r[i].code == codes[i].code
    ensures r[i].sentAt == codes[i].sentAt && r[i].userId == codes[i].userId
    ensures forall j :: 0 <= j < |codes| && j != i ==> r[j] == codes[j]
  {
    codes[i := codes[i].(verified := Y, verifiedAt := Some(now))]
  }

  /** The `where: { email, verified: 'Y', user_id: null }` filter of the signup backfill. */
  predicate IsBackfillTarget(r: CodeRecord, email: string)
  {
    r.email == email && r.verified == Y && r.userId.None?
  }

  /** The bulk `EmailVerification.update({ user_id }, …)` run after a registration. */
  function Backfill(codes: seq<CodeRecord>, email: string, uid: nat): (r: seq<CodeRecord>)
    ensures |r| == |codes|
    ensures forall j :: 0 <= j < |codes| && IsBackfillTarget(codes[j], email) ==> r[j] == codes[j].(userId := Some(uid))
    ensures forall j :: 0 <= j < |codes| && !IsBackfillTarget(codes[j], email) ==> r[j] == codes[j]
    ensures forall j :: 0 <= j < |r| ==> !IsBackfillTarget(r[j], email)
  {
    if |codes| == 0 then []
    else
      var last := codes[|codes| - 1];
      Backfill(codes[..|codes| - 1], email, uid)
        + [if IsBackfillTarget(last, email) then last.(userId := Some(uid)) else last]
  }

  /** Consuming row `i` removes exactly `i` from the rows every lookup may
      return, whatever email and code it asks for: a consumed code can never
      be accepted again, and no other row's chances change. */
  lemma ConsumeRemovesOnlyThatRow(codes: seq<CodeRecord>, i: nat, now: int, email: string, code: string)
    requires i < |codes|
    ensures Pending(Consume(codes, i, now), email, code) == Pending(codes, email, code) - {i}
  {
  }

  /** Issuing a code adds the new row to the matching lookups and to no other. */
  lemma IssueAddsOneRow(codes: seq<CodeRecord>, email: string, code: string, now: int, uid: nat, e: string, c: string)
    ensures Pending(codes + [Issued(email, code, now, uid)], e, c)
         == Pending(codes, e, c) + (if e == email && c == code then {|codes|} else {})
  {
  }

  /** The backfill touches only verified rows, so it never changes what a
      code lookup may return. */
  lemma BackfillKeepsPending(codes: seq<CodeRecord>, email: string, uid: nat, e: string, c: string)
    ensures Pending(Backfill(codes, email, uid), e, c) == Pending(codes, e, c)
  {
  }

  /** Whenever some row is pending, a newest pending row exists, so the
      ordered lookup always has a result when the unordered one does. */
  lemma {:induction false} NewestPendingExists(codes: seq<CodeRecord>, email: string, code: string)
    requires Pending(codes, email, code) != {}
    ensures exists i: nat :: i < |codes| && IsNewestPending(codes, i, email, code)
  {
    var n := |codes| - 1;
    var init := codes[..n];
    assert forall k :: 0 <= k < n ==> init[k] == codes[k];
    assert forall k: nat :: k < n && IsPending(codes[k], email, code) ==> k in Pending(init, email, code);
    if Pending(init, email, code) == {} {
      var j :| j in Pending(codes, email, code);
      assert j == n;
      assert IsNewestPending(codes, n, email, code);
    } else {
      NewestPendingExists(init, email, code);
      var i: nat :| i < |init| && IsNewestPending(init, i, email, code);
      assert codes[i] == init[i];
      if IsPending(codes[n], email, code) && codes[n].sentAt > codes[i].sentAt {
        assert IsNewestPending(codes, n, email, code);
      } else {
        assert IsNewestPending(codes, i, email, code);
      }
    }
  }

  /** With the newest pending row as the lookup result, the validation
      accepts exactly when some pending row is still within its lifetime:
      every older pending row has expired if the newest one has. */
  lemma NewestDecidesExpiry(codes: seq<CodeRecord>, i: nat, email: string, code: string, now: int)
    requires IsNewestPending(codes, i, email, code)
    ensures !Expired(codes[i], now) <==> exists j: nat :: Admits(codes, j, email, code, now)
  {
    if exists j: nat :: Admits(codes, j, email, code, now) {
      var j: nat :| Admits(codes, j, email, code, now);
      assert codes[j].sentAt <= codes[i].sentAt;
    } else {
      assert !Admits(codes, i, email, code, now);
    }
  }

  /** Consuming a row and backfilling keep every row well formed. */
  lemma ConsumeBackfillWellFormed(codes: seq<CodeRecord>, i: nat, now: int, email: string, uid: nat)
    requires i < |codes|
    requires forall j :: 0 <= j < |codes| ==> WellFormed(codes[j])
    ensures forall j :: 0 <= j < |codes| ==> WellFormed(Consume(codes, i, now)[j])
    ensures forall j :: 0 <= j < |codes| ==> WellFormed(Backfill(Consume(codes, i, now), email, uid)[j])
  {
  }
}
