/** The account entity of the keyshare server: PIN attempts and lockout, the session
    token, enrollment and enabled flags, the key share, the proof-builder lifecycle
    and the audit log. The clock, the session timeout and the enrollment-check
    setting are passed in as parameters. */
module Users {
  import opened Outcomes
  import opened Backoff
  import Hex
  import opened AuditLog
  import opened Proofs

  class User {
    const id: int
    var username: string
    var password: string
    var pin: string
    var pinCounter: int
    var pinblockDate: Option<int>
    var keyshare: string
    var publicKey: PublicKey
    var enrolled: bool
    var enabled: bool
    var emailIssued: bool
    var sessionToken: Option<string>
    var lastSeen: Option<int>
    var pbuilder: Option<Builder>
    var log: seq<LogEntry>

    /** Once the counter has reached the lockout threshold a lockout date has been
        stored, so reading the remaining lockout never unboxes a null date. */
    predicate Valid()
      reads this
    {
      pinCounter >= MAX_PIN_TRIES ==> pinblockDate.Some?
    }

    /** A new account: counter 0, not enrolled, enabled, no e-mail attribute issued,
        and the key share stored in hexadecimal. */
    constructor (id: int, username: string, password: string, pin: string, secret: int, publicKey: PublicKey)
      ensures Valid()
      ensures this.id == id && this.username == username && this.password == password && this.pin == pin
      ensures this.publicKey == publicKey && GetKeyshare() == Ok(secret)
      ensures pinCounter == 0 && pinblockDate == None
      ensures !enrolled && enabled && !emailIssued
      ensures sessionToken == None && lastSeen == None && pbuilder == None && log == []
    {
      this.id := id;
      this.username := username;
      this.password := password;
      this.pin := pin;
      pinCounter := 0;
      pinblockDate := None;
      keyshare := Hex.ToHex(secret);
      this.publicKey := publicKey;
      enrolled := false;
      enabled := true;
      emailIssued := false;
      sessionToken := None;
      lastSeen := None;
      pbuilder := None;
      log := [];
      new;
      Hex.HexRoundTrip(secret);
    }

    /** Plain equality with the stored password. */
    function VerifyPassword(candidate: string): (ok: bool)
      reads this
      ensures ok <==> candidate == password
    {
      password == candidate
    }

    // ---------------------------------------------------------------- sessions

    method SetSeen(now: int)
      modifies this`lastSeen
      ensures lastSeen == Some(now)
    {
      lastSeen := Some(now);
    }

    /** Grants a session: stamps the last-seen time, then stores the token. At that
        same instant the token is valid exactly when it is non-empty and the timeout
        is positive. */
    method SetSessionToken(token: string, now: int)
      modifies this`lastSeen, this`sessionToken
      ensures lastSeen == Some(now) && sessionToken == Some(token)
      ensures forall timeout :: IsValidSession(token, now, timeout) == Ok(token != [] && timeout > 0)
    {
      SetSeen(now);
      sessionToken := Some(token);
    }

    /** The stored token is non-null, non-empty and the presented one, and the session
        has not expired: last seen plus the timeout in minutes lies strictly after now.
        Both conditions are evaluated, so a null last-seen time throws. */
    function IsValidSession(presented: string, now: int, timeout: int): (r: Result<bool>)
      reads this
      ensures r.Thrown? <==> lastSeen.None?
      ensures r.Thrown? ==> r.error == NullPointer
      ensures r == Ok(true) <==>
        sessionToken == Some(presented) && presented != [] && lastSeen.Some? && now < lastSeen.value + timeout * 60
      ensures lastSeen.Some? && now >= lastSeen.value + timeout * 60 ==> r == Ok(false)
    {
      var valid := sessionToken.Some? && |sessionToken.value| > 0 && sessionToken.value == presented;
      match lastSeen
      case None => Thrown(NullPointer)
      case Some(seen) => Ok(valid && seen + timeout * 60 > now)
    }

    /** With the enrollment check switched off every account counts as enrolled. */
    function IsEnrolled(checkEnrolled: bool): (r: bool)
      reads this
      ensures !checkEnrolled ==> r
      ensures checkEnrolled ==> (r <==> enrolled)
    {
      !checkEnrolled || enrolled
    }

    // ------------------------------------------------------- PIN and lockout

    /** Positive exactly while the account has not reached the lockout threshold;
        from then on its negation is one less than the lockout level. */
    function PinTriesRemaining(): (r: int)
      reads this
      ensures r > 0 <==> PinblockLevel() == 0
      ensures r <= 0 ==> PinblockLevel() == 1 - r
      ensures r > 0 ==> Level(pinCounter + r - 1) == 0 && Level(pinCounter + r) == 1
    {
      MAX_PIN_TRIES - pinCounter
    }

    function PinblockLevel(): nat
      reads this
    {
      Level(pinCounter)
    }

    /** Seconds of lockout left: 0 at level 0 whatever date is stored, otherwise the
        time until the stored date, never negative. */
    function PinblockRelease(now: int): (r: int)
      reads this
      requires Valid()
      ensures r >= 0
      ensures pinCounter < MAX_PIN_TRIES ==> r == 0
      ensures pinCounter >= MAX_PIN_TRIES ==> (r > 0 <==> now < pinblockDate.value)
      ensures r > 0 ==> r == pinblockDate.value - now
    {
      if PinblockLevel() == 0 then 0
      else
        var left := pinblockDate.value - now;
        if left > 0 then left else 0
    }

    function IsPinBlocked(now: int): (b: bool)
      reads this
      requires Valid()
      ensures b <==> pinCounter >= MAX_PIN_TRIES && now < pinblockDate.value
    {
      PinblockRelease(now) > 0
    }

    /** The administrative flag and the PIN lockout are independent gates: both must be open. */
    function IsEnabled(now: int): (r: bool)
      reads this
      requires Valid()
      ensures r <==> enabled && (pinCounter < MAX_PIN_TRIES || pinblockDate.value <= now)
      ensures IsPinBlocked(now) ==> !r
    {
      enabled && !IsPinBlocked(now)
    }

    method AddLog(event: LogEntryType, param: Option<int>, now: int)
      modifies this`log
      ensures log == old(log) + [LogEntry(event, param, now)]
    {
      log := log + [LogEntry(event, param, now)];
    }

    method ResetPinCounter()
      modifies this`pinCounter
      ensures pinCounter == 0 && Valid()
    {
      pinCounter := 0;
    }

    /** Stores the end of the lockout that the current level earns. */
    method IncrementPinblock(now: int)
      modifies this`pinblockDate
      ensures pinblockDate == Some(now + Duration(PinblockLevel())) && Valid()
    {
      pinblockDate := Some(now + Duration(PinblockLevel()));
    }

    /** Counts an attempt and checks the PIN. A correct PIN resets the counter and logs
        success; a wrong one keeps the raised counter, logs the tries remaining (which
        may be zero or negative) and, from the third failure on, locks the account for
        the level's duration and logs that duration. */
    method CheckAndCountPin(candidate: string, now: int) returns (correct: bool)
      modifies this`pinCounter, this`pinblockDate, this`log
      ensures Valid()
      ensures correct <==> candidate == pin
      ensures correct ==> pinCounter == 0 && pinblockDate == old(pinblockDate)
      ensures correct ==> log == old(log) + [LogEntry(PinCheckSuccess, None, now)]
      ensures correct ==> forall t :: !IsPinBlocked(t)
      ensures !correct ==> pinCounter == old(pinCounter) + 1
      ensures !correct && pinCounter < MAX_PIN_TRIES ==>
        && pinblockDate == old(pinblockDate)
        && log == old(log) + [LogEntry(PinCheckFailed, Some(MAX_PIN_TRIES - pinCounter), now)]
      ensures !correct && pinCounter >= MAX_PIN_TRIES ==>
        && pinblockDate == Some(now + Duration(Level(pinCounter)))
        && log == old(log) + [LogEntry(PinCheckFailed, Some(MAX_PIN_TRIES - pinCounter), now),
                              LogEntry(PinCheckBlocked, Some(Duration(Level(pinCounter))), now)]
        && IsPinBlocked(now) && !IsEnabled(now)
    {
      var counter := pinCounter;
      correct := pin == candidate;
      counter := counter + 1;
      pinCounter := counter;
      if correct {
        AddLog(PinCheckSuccess, None, now);
        ResetPinCounter();
      } else {
        AddLog(PinCheckFailed, Some(PinTriesRemaining()), now);
        if counter >= MAX_PIN_TRIES {
          IncrementPinblock(now);
          var block := PinblockRelease(now);
          AddLog(PinCheckBlocked, Some(block), now);
        }
      }
    }

    /** Enabling logs it and resets the PIN counter, which lifts any lockout; disabling
        logs it and leaves the counter alone. Either way the flag takes the value. */
    method SetEnabled(value: bool, now: int)
      requires Valid()
      modifies this`enabled, this`pinCounter, this`log
      ensures Valid() && enabled == value
      ensures value ==> pinCounter == 0 && log == old(log) + [LogEntry(IrmaEnabled, None, now)]
      ensures value ==> forall t :: IsEnabled(t)
      ensures !value ==> pinCounter == old(pinCounter) && log == old(log) + [LogEntry(IrmaBlocked, None, now)]
      ensures !value ==> forall t :: !IsEnabled(t)
    {
      if value {
        AddLog(IrmaEnabled, None, now);
        ResetPinCounter();
      } else {
        AddLog(IrmaBlocked, None, now);
      }
      enabled := value;
    }

    // ------------------------------------------------------------ key share and proofs

    /** The key share read back from its hexadecimal text; text that is not a
        hexadecimal number throws NumberFormatException. */
    function GetKeyshare(): (r: Result<int>)
      reads this
      ensures r.Thrown? ==> r.error == NumberFormat
      ensures keyshare == [] ==> r.Thrown?
    {
      Hex.ParseHex(keyshare)
    }

    /** Sets up a builder for the requested keys with this account's key share, makes
        it draw its randomizers, registers it under this account's id (replacing any
        earlier one, and no other id's), and returns its commitments. `outcome` says
        which step of the credential library throws, if any: an exception in the
        constructor leaves everything as it was, one in `generateRandomizers` leaves
        only the instance reference set, and one in `calculateCommitments` comes after
        the builder has been registered. */
    method GenerateCommitments(registry: BuilderRegistry, keyIds: seq<KeyId>, outcome: LibraryOutcome,
                               randomizers: int)
      returns (r: Result<Commitments>)
      modifies this`pbuilder, registry`builders
      ensures GetKeyshare().Thrown? ==>
        r == Thrown(NumberFormat) && pbuilder == old(pbuilder) && registry.builders == old(registry.builders)
      ensures GetKeyshare().Ok? && outcome != Succeeds ==> r == Thrown(CredentialLibrary)
      ensures GetKeyshare().Ok? && outcome == FailsInConstructor ==>
        pbuilder == old(pbuilder) && registry.builders == old(registry.builders)
      ensures GetKeyshare().Ok? && outcome == FailsInRandomizers ==>
        && pbuilder == Some(Builder(keyIds, GetKeyshare().value, None))
        && registry.builders == old(registry.builders)
      ensures GetKeyshare().Ok? && (outcome == Succeeds || outcome == FailsInCommitments) ==>
        var b := Builder(keyIds, GetKeyshare().value, Some(randomizers));
        && pbuilder == Some(b)
        && registry.builders == old(registry.builders)[id := b]
        && (outcome == Succeeds ==> r == Ok(CalculateCommitments(b)))
    {
      var secret := GetKeyshare();
      if secret.Thrown? {
        return Thrown(NumberFormat);
      }
      if outcome == FailsInConstructor {
        return Thrown(CredentialLibrary);
      }
      var b := Builder(keyIds, secret.value, None);
      pbuilder := Some(b);
      if outcome == FailsInRandomizers {
        return Thrown(CredentialLibrary);
      }
      b := b.(randomizers := Some(randomizers));
      pbuilder := Some(b);
      registry.builders := registry.builders[id := b];
      if outcome == FailsInCommitments {
        return Thrown(CredentialLibrary);
      }
      r := Ok(CalculateCommitments(b));
    }

    /** Answers a challenge with the builder registered for this account's id, or throws
        UNEXPECTED_REQUEST when there is none. Only the instance's own reference is
        cleared: the registry keeps the entry. */
    method BuildProofP(registry: BuilderRegistry, challenge: int, now: int) returns (r: Result<ProofP>)
      modifies this`pbuilder, this`log
      ensures registry.builders == old(registry.builders) && pbuilder == None
      ensures id !in registry.builders ==> r == Thrown(UnexpectedRequest) && log == old(log)
      ensures id in registry.builders ==>
        && r == Ok(Build(registry.builders[id], challenge, publicKey))
        && log == old(log) + [LogEntry(IrmaSession, None, now)]
    {
      pbuilder := if id in registry.builders then Some(registry.builders[id]) else None;
      if pbuilder.None? {
        return Thrown(UnexpectedRequest);
      }
      var proof := Build(pbuilder.value, challenge, publicKey);
      pbuilder := None;
      AddLog(IrmaSession, None, now);
      r := Ok(proof);
    }

    /** As written, one set of commitments answers any number of challenges: after
        GenerateCommitments both a first and a second BuildProofP succeed, with the
        same builder and so the same randomizers. */
    method CommitThenAnswerTwice(registry: BuilderRegistry, keyIds: seq<KeyId>, randomizers: int,
                                 first: int, second: int, now: int)
      returns (a: Result<ProofP>, b: Result<ProofP>)
      requires GetKeyshare().Ok?
      modifies this`pbuilder, this`log, registry`builders
      ensures a.Ok? && b.Ok?
      ensures a.value.builder == b.value.builder && b.value.builder.randomizers == Some(randomizers)
      ensures a.value.challenge == first && b.value.challenge == second
    {
      var c := GenerateCommitments(registry, keyIds, Succeeds, randomizers);
      a := BuildProofP(registry, first, now);
      b := BuildProofP(registry, second, now);
    }

    /** BuildProofP as its comment intends: the registry entry is removed in the same
        step as its only use. */
    method BuildProofPOnce(registry: BuilderRegistry, challenge: int, now: int) returns (r: Result<ProofP>)
      modifies this`pbuilder, this`log, registry`builders
      ensures registry.builders == old(registry.builders) - {id} && pbuilder == None
      ensures id !in old(registry.builders) ==> r == Thrown(UnexpectedRequest) && log == old(log)
      ensures id in old(registry.builders) ==>
        && r == Ok(Build(old(registry.builders)[id], challenge, publicKey))
        && log == old(log) + [LogEntry(IrmaSession, None, now)]
    {
      pbuilder := if id in registry.builders then Some(registry.builders[id]) else None;
      if pbuilder.None? {
        return Thrown(UnexpectedRequest);
      }
      registry.builders := registry.builders - {id};
      var proof := Build(pbuilder.value, challenge, publicKey);
      pbuilder := None;
      AddLog(IrmaSession, None, now);
      r := Ok(proof);
    }

    /** With the corrected answer step, the second challenge for one set of commitments
        is refused. */
    method CommitThenAnswerOnce(registry: BuilderRegistry, keyIds: seq<KeyId>, randomizers: int,
                                first: int, second: int, now: int)
      returns (a: Result<ProofP>, b: Result<ProofP>)
      requires GetKeyshare().Ok?
      modifies this`pbuilder, this`log, registry`builders
      ensures a.Ok? && a.value.builder.randomizers == Some(randomizers)
      ensures b == Thrown(UnexpectedRequest)
    {
      var c := GenerateCommitments(registry, keyIds, Succeeds, randomizers);
      a := BuildProofPOnce(registry, first, now);
      b := BuildProofPOnce(registry, second, now);
    }

    /** When `calculateCommitments` throws, the caller sees the exception and no
        commitments, yet the builder is already registered: a following challenge is
        answered with the randomizers it drew. */
    method FailedCommitmentsStillAnswer(registry: BuilderRegistry, keyIds: seq<KeyId>, randomizers: int,
                                        challenge: int, now: int)
      returns (c: Result<Commitments>, a: Result<ProofP>)
      requires GetKeyshare().Ok?
      modifies this`pbuilder, this`log, registry`builders
      ensures c == Thrown(CredentialLibrary)
      ensures a.Ok? && a.value.builder.randomizers == Some(randomizers) && a.value.challenge == challenge
    {
      c := GenerateCommitments(registry, keyIds, FailsInCommitments, randomizers);
      a := BuildProofP(registry, challenge, now);
    }

    // ---------------------------------------------------------------- audit log

    /** Copies the rows of the first query into the page, drops the eleventh (kept
        only for its timestamp, the `next` cursor), and takes the `prev` cursor from
        the last row of the second query. */
    method GetLogs(start: int) returns (page: LogEntryList)
      requires Chronological(log)
      ensures page == Paginate(log, start)
      ensures |page.entries| <= PAGE_SIZE && NewestFirst(page.entries)
      ensures forall e :: e in page.entries ==> e in log && e.time <= start
    {
      var records := NewestAtOrBefore(log, start, PAGE_SIZE + 1);
      var prevRecords := OldestAfter(log, start, PAGE_SIZE);
      var lst: seq<LogEntry> := [];
      var hasNext := false;
      for i := 0 to |records|
        invariant lst == records[..i]
      {
        lst := lst + [records[i]];
      }
      assert lst == records;
      if |lst| == PAGE_SIZE + 1 {
        assert lst[PAGE_SIZE + 1..] == [];
        lst := lst[..PAGE_SIZE] + lst[PAGE_SIZE + 1..];
        assert lst == records[..PAGE_SIZE];
        hasNext := true;
      }
      var next := if hasNext then Some(records[PAGE_SIZE].time) else None;
      var prev := if |prevRecords| != 0 then Some(prevRecords[|prevRecords| - 1].time) else None;
      page := LogEntryList(lst, prev, next);
      PageEntries(log, start);
      PageNewestFirst(log, start);
    }
  }

  /** The session examples: stored token "abc" last seen at t, timeout five minutes. */
  lemma SessionTimeoutExample(u: User, t: int)
    requires u.sessionToken == Some("abc") && u.lastSeen == Some(t)
    ensures u.IsValidSession("abc", t + 299, 5) == Ok(true)
    ensures u.IsValidSession("abc", t + 300, 5) == Ok(false)
    ensures u.IsValidSession("abc", t + 301, 5) == Ok(false)
    ensures u.IsValidSession("xyz", t + 1, 5) == Ok(false)
  {
  }
}
