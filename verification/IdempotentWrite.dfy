/**
 * The idempotent runner behind the MCP write tools. The business tables are any type Db, a tool's
 * mutation is any function on them, and hashing and JSON are any functions at all.
 */
module IdempotentWrite {
  import opened Basics
  import opened Text

  datatype Arg = TextArg(text: string) | NullArg | OtherArg(json: string)

  datatype WriteError = Business(message: string) | RecordNotFound | Unexpected(message: string)

  datatype Mutation<Db, R> =
    | Done(db: Db, result: R, resourceId: string, postCommit: Option<string>)
    | Refused(error: WriteError)

  /** What the audit service answers while the call runs. */
  datatype Audit = AuditOff | AuditWorks | AuditFails(error: string) | AuditUnknown(error: string)

  datatype Call<!Db, R> = Call(
    userId: nat,
    toolName: string,
    allowedArgs: Option<set<string>>,
    args: map<string, Arg>,
    audit: Audit,
    mutate: Db -> Mutation<Db, R>)

  datatype Record = Record(requestHash: string, toolName: string, resourceId: string, response: string)

  datatype AuditEvent = AuditEvent(userId: nat, toolName: string, resourceId: string)

  type Key = (nat, string)

  /** The database, and the side effects that ran after commits. */
  datatype State<Db> = State(db: Db, audit: seq<AuditEvent>, records: map<Key, Record>, effects: seq<string>)

  datatype Response<R> =
    | Success(result: R)
    | ToolError(message: string)
    | InvalidParams(message: string)
    | InternalError(message: string)

  /** JSON and SHA-256. */
  datatype Codec<!R> = Codec(
    fingerprint: (string, map<string, Arg>) -> Option<string>,
    encode: R -> Option<string>,
    decode: string -> Option<R>)

  const KEY_ARG := "idempotency_key"
  const MISMATCH := "idempotency_key was reused with different request arguments"

  function ReadKey(args: map<string, Arg>): Result<string, string> {
    if KEY_ARG !in args || args[KEY_ARG].NullArg? then Err("idempotency_key is required")
    else
      match args[KEY_ARG]
      case TextArg(text) =>
        var key := TrimSpace(text);
        if key == "" then Err("idempotency_key is required")
        else if Octets(key) > 255 then Err("idempotency_key must be 255 characters or less")
        else Ok(key)
      case _ => Err("idempotency_key must be a string")
  }

  function Fingerprint<R>(codec: Codec<R>, toolName: string, args: map<string, Arg>): Option<string> {
    codec.fingerprint(toolName, args - {KEY_ARG})
  }

  function MapError<R>(e: WriteError): Response<R> {
    match e
    case Business(m) => ToolError(m)
    case RecordNotFound => ToolError("record not found")
    case Unexpected(m) => InternalError(m)
  }

  /** The request as far as it can be judged before the transaction starts. */
  function Admit<Db, R>(codec: Codec<R>, c: Call<Db, R>): Result<(Key, string), Response<R>> {
    match ReadKey(c.args)
    case Err(e) => Err(InvalidParams(e))
    case Ok(key) =>
      if c.allowedArgs.Some? && !(c.args.Keys <= c.allowedArgs.value) then Err(InvalidParams("unexpected argument"))
      else
        match Fingerprint(codec, c.toolName, c.args)
        case None => Err(InternalError("fingerprint failed"))
        case Some(hash) =>
          if c.audit.AuditUnknown? then Err(InternalError(c.audit.error)) else Ok(((c.userId, key), hash))
  }

  function Replay<R>(codec: Codec<R>, record: Record, hash: string): Response<R> {
    if record.requestHash != hash then InvalidParams(MISMATCH)
    else
      match codec.decode(record.response)
      case None => InternalError("stored response is unreadable")
      case Some(r) => Success(r)
  }

  function Commit<Db, R>(s: State<Db>, c: Call<Db, R>, key: Key, hash: string, m: Mutation<Db, R>, response: string)
    : State<Db>
    requires m.Done?
  {
    State(m.db,
          if c.audit.AuditWorks? then s.audit + [AuditEvent(c.userId, c.toolName, m.resourceId)] else s.audit,
          s.records[key := Record(hash, c.toolName, m.resourceId, response)],
          if m.postCommit.Some? then s.effects + [m.postCommit.value] else s.effects)
  }

  function Execute<Db, R>(codec: Codec<R>, s: State<Db>, c: Call<Db, R>): (State<Db>, Response<R>) {
    match Admit(codec, c)
    case Err(r) => (s, r)
    case Ok((key, hash)) =>
      if key in s.records then (s, Replay(codec, s.records[key], hash))
      else
        match c.mutate(s.db)
        case Refused(e) => (s, MapError(e))
        case Done(db, result, id, post) =>
          if c.audit.AuditFails? then (s, InternalError(c.audit.error))
          else
            match codec.encode(result)
            case None => (s, InternalError("result cannot be stored"))
            case Some(text) => (Commit(s, c, key, hash, Done(db, result, id, post), text), Success(result))
  }

  class McpStore<Db> {
    var db: Db
    var audit: seq<AuditEvent>
    var records: map<Key, Record>
    var effects: seq<string>

    ghost function Current(): State<Db>
      reads this
    {
      State(db, audit, records, effects)
    }

    constructor (db: Db)
      ensures Current() == State(db, [], map[], [])
    {
      this.db := db;
      audit, records, effects := [], map[], [];
    }

    /** A transaction writes as it goes; on an error the caller's snapshot is put back. */
    method RunIdempotentWrite<R>(codec: Codec<R>, c: Call<Db, R>) returns (response: Response<R>)
      modifies this
      ensures (Current(), response) == Execute(codec, old(Current()), c)
    {
      var admitted := Admit(codec, c);
      if admitted.Err? {
        return admitted.error;
      }
      var (key, hash) := admitted.value;
      var db0, audit0 := db, audit;
      if key in records {
        return Replay(codec, records[key], hash);
      }
      var outcome := c.mutate(db);
      if outcome.Refused? {
        return MapError(outcome.error);
      }
      db := outcome.db;
      if c.audit.AuditFails? {
        db := db0;
        return InternalError(c.audit.error);
      }
      if c.audit.AuditWorks? {
        audit := audit + [AuditEvent(c.userId, c.toolName, outcome.resourceId)];
      }
      var encoded := codec.encode(outcome.result);
      if encoded.None? {
        db, audit := db0, audit0;
        return InternalError("result cannot be stored");
      }
      records := records[key := Record(hash, c.toolName, outcome.resourceId, encoded.value)];
      if outcome.postCommit.Some? {
        effects := effects + [outcome.postCommit.value];
      }
      return Success(outcome.result);
    }
  }

  // ---- whole runs ----

  function Run<Db, R>(codec: Codec<R>, s: State<Db>, calls: seq<Call<Db, R>>): State<Db>
    decreases |calls|
  {
    if calls == [] then s else Run(codec, Execute(codec, s, calls[0]).0, calls[1..])
  }

  /** The call would change the database: admitted, its key unused, and every part of it works. */
  ghost predicate Commits<Db, R>(codec: Codec<R>, s: State<Db>, c: Call<Db, R>) {
    && Admit(codec, c).Ok?
    && Admit(codec, c).value.0 !in s.records
    && c.mutate(s.db).Done?
    && !c.audit.AuditFails?
    && codec.encode(c.mutate(s.db).result).Some?
  }

  /** The calls of a run that commit, in order. */
  ghost function Effective<Db, R>(codec: Codec<R>, s: State<Db>, calls: seq<Call<Db, R>>): seq<Call<Db, R>>
    decreases |calls|
  {
    if calls == [] then []
    else
      var rest := Effective(codec, Execute(codec, s, calls[0]).0, calls[1..]);
      if Commits(codec, s, calls[0]) then [calls[0]] + rest else rest
  }

  /** A call leaves a record exactly when it commits, and one that does not commit leaves no trace. */
  lemma CommitOrNothing<Db, R>(codec: Codec<R>, s: State<Db>, c: Call<Db, R>)
    ensures var (s', r) := Execute(codec, s, c);
            if Commits(codec, s, c)
            then s'.records.Keys == s.records.Keys + {Admit(codec, c).value.0} && r == Success(c.mutate(s.db).result)
                 && s'.db == c.mutate(s.db).db
            else s' == s
    ensures forall k | k in s.records ::
              k in Execute(codec, s, c).0.records && Execute(codec, s, c).0.records[k] == s.records[k]
  {
  }

  /**
   * Running only the committing calls gives the same tables, audit trail, records and side
   * effects as the whole run, and every one of them commits again on its own.
   */
  lemma {:induction false} OnlyEffectiveCallsMatter<Db, R>(codec: Codec<R>, s: State<Db>, calls: seq<Call<Db, R>>)
    ensures Run(codec, s, Effective(codec, s, calls)) == Run(codec, s, calls)
    ensures Effective(codec, s, Effective(codec, s, calls)) == Effective(codec, s, calls)
    decreases |calls|
  {
    if calls != [] {
      CommitOrNothing(codec, s, calls[0]);
      var s' := Execute(codec, s, calls[0]).0;
      OnlyEffectiveCallsMatter(codec, s', calls[1..]);
      if Commits(codec, s, calls[0]) {
        var e := Effective(codec, s, calls);
        assert e[0] == calls[0] && e[1..] == Effective(codec, s', calls[1..]);
      }
    }
  }

  /** The specification: no records table, only the first successful call of each (user, key). */
  ghost function FirstSuccesses<Db, R>(codec: Codec<R>, db: Db, used: set<Key>, calls: seq<Call<Db, R>>): Db
    decreases |calls|
  {
    if calls == [] then db
    else
      var c := calls[0];
      var works := Admit(codec, c).Ok? && c.mutate(db).Done? && !c.audit.AuditFails?
        && codec.encode(c.mutate(db).result).Some?;
      if works && Admit(codec, c).value.0 !in used
      then FirstSuccesses(codec, c.mutate(db).db, used + {Admit(codec, c).value.0}, calls[1..])
      else FirstSuccesses(codec, db, used, calls[1..])
  }

  lemma {:induction false} RunIsFirstSuccesses<Db, R>(codec: Codec<R>, s: State<Db>, calls: seq<Call<Db, R>>)
    ensures Run(codec, s, calls).db == FirstSuccesses(codec, s.db, s.records.Keys, calls)
    decreases |calls|
  {
    if calls != [] {
      CommitOrNothing(codec, s, calls[0]);
      RunIsFirstSuccesses(codec, Execute(codec, s, calls[0]).0, calls[1..]);
    }
  }

  ghost function KeyOf<Db, R>(codec: Codec<R>, c: Call<Db, R>): Option<Key> {
    match Admit(codec, c)
    case Ok((key, _)) => Some(key)
    case Err(_) => None
  }

  /** Each committing call has a key that is unused before it. */
  ghost predicate FreshKeys<Db, R>(codec: Codec<R>, calls: seq<Call<Db, R>>, used: set<Key>)
    decreases |calls|
  {
    calls == [] ||
    (KeyOf(codec, calls[0]).Some? && KeyOf(codec, calls[0]).value !in used
     && FreshKeys(codec, calls[1..], used + {KeyOf(codec, calls[0]).value}))
  }

  /** No two committing calls share a key, and none uses a key that was already taken. */
  lemma {:induction false} EffectiveKeysAreDistinct<Db, R>(codec: Codec<R>, s: State<Db>, calls: seq<Call<Db, R>>)
    ensures FreshKeys(codec, Effective(codec, s, calls), s.records.Keys)
    decreases |calls|
  {
    if calls != [] {
      CommitOrNothing(codec, s, calls[0]);
      var s' := Execute(codec, s, calls[0]).0;
      EffectiveKeysAreDistinct(codec, s', calls[1..]);
      if Commits(codec, s, calls[0]) {
        assert Effective(codec, s, calls)[1..] == Effective(codec, s', calls[1..]);
      }
    }
  }

  lemma {:induction false} RecordsArePermanent<Db, R>(codec: Codec<R>, s: State<Db>, calls: seq<Call<Db, R>>, k: Key)
    requires k in s.records
    ensures k in Run(codec, s, calls).records && Run(codec, s, calls).records[k] == s.records[k]
    decreases |calls|
  {
    if calls != [] {
      CommitOrNothing(codec, s, calls[0]);
      RecordsArePermanent(codec, Execute(codec, s, calls[0]).0, calls[1..], k);
    }
  }

  /**
   * After a call has committed, whatever calls come in between, a retry with the same key is
   * answered without touching anything: with the first result if it asks for the same thing, with
   * a rejection if it does not.
   */
  lemma RetryIsAnsweredFromTheRecord<Db, R>(codec: Codec<R>, s: State<Db>, first: Call<Db, R>,
                                            between: seq<Call<Db, R>>,
                                            retry: Call<Db, R>)
    requires Commits(codec, s, first)
    requires codec.decode(codec.encode(first.mutate(s.db).result).value) == Some(first.mutate(s.db).result)
    requires Admit(codec, retry).Ok? && Admit(codec, retry).value.0 == Admit(codec, first).value.0
    ensures var later := Run(codec, Execute(codec, s, first).0, between);
            Execute(codec, later, retry)
            == (later, if Admit(codec, retry).value.1 == Admit(codec, first).value.1
                       then Execute(codec, s, first).1
                       else InvalidParams(MISMATCH))
  {
    CommitOrNothing(codec, s, first);
    RecordsArePermanent(codec, Execute(codec, s, first).0, between, Admit(codec, first).value.0);
  }

  // ---- what is judged before the transaction ----

  /** The key: the trimmed text of the argument, neither blank nor longer than 255 octets. */
  ghost predicate KeyIs(args: map<string, Arg>, key: string) {
    exists text | key == TrimSpace(text) :: "idempotency_key" in args && args["idempotency_key"] == TextArg(text)
                                            && key != "" && Octets(key) <= 255
  }

  /** The same tool is asked to do the same thing: all arguments but the key agree. */
  ghost predicate SameRequest<Db, R>(a: Call<Db, R>, b: Call<Db, R>) {
    && a.toolName == b.toolName
    && forall name | name != "idempotency_key" ::
         (name in a.args <==> name in b.args) && (name in a.args && name in b.args ==> a.args[name] == b.args[name])
  }

  /** Different requests never share a fingerprint. */
  ghost predicate CollisionFree<R(!new)>(codec: Codec<R>) {
    forall tool, args, tool', args' ::
      codec.fingerprint(tool, args) == codec.fingerprint(tool', args') && codec.fingerprint(tool, args).Some? ==>
        tool == tool' && args == args'
  }

  /**
   * A call is admitted exactly when its key is usable, it has no argument the tool does not know,
   * its request can be hashed and the audit service answers; and it is admitted under its own
   * user and key, with the hash of what it asks for.
   */
  lemma AdmitExactly<Db, R(!new)>(codec: Codec<R>, c: Call<Db, R>)
    ensures Admit(codec, c).Ok?
            <==> (exists key :: KeyIs(c.args, key))
                 && (c.allowedArgs.Some? ==> forall name | name in c.args :: name in c.allowedArgs.value)
                 && codec.fingerprint(c.toolName, map n | n in c.args && n != "idempotency_key" :: c.args[n]).Some?
                 && !c.audit.AuditUnknown?
    ensures Admit(codec, c).Ok? ==>
              var ((user, key), hash) := Admit(codec, c).value;
              user == c.userId && KeyIs(c.args, key)
              && codec.fingerprint(c.toolName, map n | n in c.args && n != "idempotency_key" :: c.args[n]) == Some(hash)
    ensures !(exists key :: KeyIs(c.args, key)) ==> Admit(codec, c).Err? && Admit(codec, c).error.InvalidParams?
  {
    hide TrimSpace, Octets;
    assert (map n | n in c.args && n != "idempotency_key" :: c.args[n]) == c.args - {KEY_ARG};
    if ReadKey(c.args).Ok? {
      assert c.args["idempotency_key"] == TextArg(c.args["idempotency_key"].text);
      assert KeyIs(c.args, ReadKey(c.args).value);
    }
  }

  lemma OneKey(args: map<string, Arg>, a: string, b: string)
    requires KeyIs(args, a) && KeyIs(args, b)
    ensures a == b
  {
  }

  /** Without collisions, two admitted calls have the same hash exactly when they ask for the same thing. */
  lemma HashIdentifiesRequest<Db, R(!new)>(codec: Codec<R>, a: Call<Db, R>, b: Call<Db, R>)
    requires CollisionFree(codec) && Admit(codec, a).Ok? && Admit(codec, b).Ok?
    ensures Admit(codec, a).value.1 == Admit(codec, b).value.1 <==> SameRequest(a, b)
  {
    AdmitExactly(codec, a);
    AdmitExactly(codec, b);
    hide Admit;
    var x := map n | n in a.args && n != "idempotency_key" :: a.args[n];
    var y := map n | n in b.args && n != "idempotency_key" :: b.args[n];
    if SameRequest(a, b) {
      assert x == y;
    }
    if x == y && a.toolName == b.toolName {
      forall name | name != "idempotency_key"
        ensures (name in a.args <==> name in b.args)
                && (name in a.args && name in b.args ==> a.args[name] == b.args[name])
      {
        assert name in x <==> name in y;
      }
    }
  }

  /**
   * Over whole runs: after a call has committed, whatever comes in between, a call with its user
   * and key changes nothing, gets the first result if tool and arguments are the same, and is
   * rejected as misuse of the key if they are not.
   */
  lemma RetryIsAnsweredExactly<Db, R(!new)>(codec: Codec<R>, s: State<Db>, first: Call<Db, R>,
                                            between: seq<Call<Db, R>>, retry: Call<Db, R>, key: string)
    requires CollisionFree(codec) && Commits(codec, s, first) && Admit(codec, retry).Ok?
    requires codec.decode(codec.encode(first.mutate(s.db).result).value) == Some(first.mutate(s.db).result)
    requires retry.userId == first.userId && KeyIs(first.args, key) && KeyIs(retry.args, key)
    ensures var later := Run(codec, Execute(codec, s, first).0, between);
            && Execute(codec, later, retry).0 == later
            && (SameRequest(first, retry) ==> Execute(codec, later, retry).1 == Success(first.mutate(s.db).result))
            && (!SameRequest(first, retry) ==> Execute(codec, later, retry).1.InvalidParams?)
  {
    AdmitExactly(codec, first);
    AdmitExactly(codec, retry);
    OneKey(first.args, key, Admit(codec, first).value.0.1);
    OneKey(retry.args, key, Admit(codec, retry).value.0.1);
    HashIdentifiesRequest(codec, first, retry);
    RetryIsAnsweredFromTheRecord(codec, s, first, between, retry);
    CommitOrNothing(codec, s, first);
  }

  // ---- what a commit writes ----

  /**
   * A committing call writes its mutation, one audit row if auditing is on, its own record and,
   * afterwards, its one side effect if it has any; another user's records and keys are untouched.
   */
  lemma CommitExactly<Db, R>(codec: Codec<R>, s: State<Db>, c: Call<Db, R>)
    requires Commits(codec, s, c)
    ensures var s', m := Execute(codec, s, c).0, c.mutate(s.db);
            var key := Admit(codec, c).value.0;
            && s'.db == m.db
            && (c.audit == AuditWorks ==> s'.audit == s.audit + [AuditEvent(c.userId, c.toolName, m.resourceId)])
            && (c.audit == AuditOff ==> s'.audit == s.audit)
            && (m.postCommit == None ==> s'.effects == s.effects)
            && (forall e | m.postCommit == Some(e) :: s'.effects == s.effects + [e])
            && s'.records.Keys == s.records.Keys + {key}
            && s'.records[key]
               == Record(Admit(codec, c).value.1, c.toolName, m.resourceId, codec.encode(m.result).value)
            && forall k | k in s.records :: k in s'.records && s'.records[k] == s.records[k]
  {
  }

  /** A call that gets as far as its mutation and fails is answered by what failed, and leaves nothing. */
  lemma FailuresAreAnswered<Db, R>(codec: Codec<R>, s: State<Db>, c: Call<Db, R>)
    requires Admit(codec, c).Ok? && Admit(codec, c).value.0 !in s.records
    ensures var (s', r) := Execute(codec, s, c);
            var m := c.mutate(s.db);
            && (m.Refused? ==> s' == s)
            && (forall e | m == Refused(Business(e)) :: r == ToolError(e))
            && (m == Refused(RecordNotFound) ==> r.ToolError?)
            && (forall e | m == Refused(Unexpected(e)) :: r == InternalError(e))
            && (m.Done? && (c.audit.AuditFails? || codec.encode(m.result).None?) ==> s' == s && r.InternalError?)
            && (Commits(codec, s, c) <==> r.Success?)
  {
  }

  /** A stored answer that cannot be read any more is an internal error, and nothing is run again. */
  lemma UnreadableAnswers<Db, R>(codec: Codec<R>, s: State<Db>, c: Call<Db, R>)
    requires Admit(codec, c).Ok? && Admit(codec, c).value.0 in s.records
    requires s.records[Admit(codec, c).value.0].requestHash == Admit(codec, c).value.1
    ensures var (s', r) := Execute(codec, s, c);
            var stored := codec.decode(s.records[Admit(codec, c).value.0].response);
            s' == s && (stored.None? <==> r.InternalError?) && (stored.Some? ==> r == Success(stored.value))
  {
  }
}
