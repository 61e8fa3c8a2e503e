/**
 * The hosted backend as this layer sees it: the `users` and
 * `waitlist_signups` tables, and the `{data, error}` shape of every reply.
 * Replies are inputs to the model (an oracle); tables are values threaded
 * through the operations that write them.
 */
module Backend {
  import opened Wrappers

  type UserId = string

  /** An error object from the backend client: its code and message. */
  datatype BackendError = BackendError(code: string, message: string)

  /** The code `.single()` reports when the query matched no row. */
  const NoRowsCode: string := "PGRST116"

  /** A query's answer: `data` on success, `error` otherwise. */
  datatype Reply<+T> = Ok(data: T) | Err(error: BackendError)

  /**
   * The error PostgreSQL raises for an insert whose primary key is already
   * taken: SQLSTATE 23505 on the default key constraint of `users`.
   */
  const DuplicateId: BackendError :=
    BackendError("23505", "duplicate key value violates unique constraint \"users_pkey\"")

  /** The answer to an insert or update whose returned data is not read. */
  datatype WriteReply = Written | WriteFailed(error: BackendError)

  /** A row of `users`, with the columns this layer writes. */
  datatype User = User(
    id: UserId,
    email: string,
    seedsBalance: int,
    cashBalance: int,
    userLevel: int,
    totalHarvests: int,
    experiencePoints: int,
    waterBalance: int,
    referralCode: Option<string>,
    isWaitlistUser: bool,
    referredBy: Option<UserId>)

  /** The columns the backend fills in when a waitlist row is inserted. */
  datatype Stamp = Stamp(emailVerified: bool, createdAt: string)

  /** A row of `waitlist_signups`. */
  datatype WaitlistRow = WaitlistRow(
    userId: UserId,
    email: string,
    gameType: string,
    rewardedApps: string,
    devices: string,
    ipAddress: Option<string>,
    timezone: string,
    browser: string,
    os: string,
    deviceType: string,
    fingerprintHash: string,
    referrer: string,
    stamp: Stamp)

  datatype Db = Db(users: map<UserId, User>, waitlist: seq<WaitlistRow>)

  /** No row of `users` holds `code` as its referral code. */
  predicate CodeUnused(users: map<UserId, User>, code: string)
  {
    forall id | id in users :: users[id].referralCode != Some(code)
  }

  /** The users whose referral code is `code`. */
  function Holders(users: map<UserId, User>, code: string): set<UserId>
  {
    set id | id in users && users[id].referralCode == Some(code)
  }

  /**
   * A truthful answer to `.select('id').eq('referral_code', code).single()`:
   * the holder's id when exactly one row matches, and error PGRST116 when
   * none or several do.
   */
  predicate AnswersSingle(users: map<UserId, User>, code: string, reply: Reply<UserId>)
  {
    if |Holders(users, code)| == 1 then reply.Ok? && Holders(users, code) == {reply.data}
    else reply.Err? && reply.error.code == NoRowsCode
  }

  /** No two users hold the same referral code. */
  predicate CodesUnique(users: map<UserId, User>)
  {
    forall a, b | a in users && b in users && a != b && users[a].referralCode.Some? ::
      users[a].referralCode != users[b].referralCode
  }

  /** With unique codes a code has at most one holder, and none exactly when it is unused. */
  lemma {:induction false} HoldersOfUniqueCodes(users: map<UserId, User>, code: string)
    requires CodesUnique(users)
    ensures |Holders(users, code)| <= 1
    ensures |Holders(users, code)| == 0 <==> CodeUnused(users, code)
  {
    var h := Holders(users, code);
    if h != {} {
      var a :| a in h;
      assert h == {a};
    }
    if !CodeUnused(users, code) {
      var id :| id in users && users[id].referralCode == Some(code);
      assert id in h;
    }
  }

  /** Two distinct holders rule out the single-row answer: `.single()` reports PGRST116. */
  lemma {:induction false} SharedCodeReadsAsNoRows(users: map<UserId, User>, code: string,
                                                   a: UserId, b: UserId, reply: Reply<UserId>)
    requires a in users && b in users && a != b
    requires users[a].referralCode == Some(code) && users[b].referralCode == Some(code)
    requires AnswersSingle(users, code, reply)
    ensures reply.Err? && reply.error.code == NoRowsCode
  {
    var h := Holders(users, code);
    assert a in h && b in h;
    if |h| == 1 {
      assert false;
    }
  }
}
