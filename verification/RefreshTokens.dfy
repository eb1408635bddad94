/** Refresh-token rotation: logins, refreshes, logouts and revoking everything a user holds. */
module RefreshTokens {
  import opened Basics
  import opened Text

  datatype Token = Token(userId: nat, tokenHash: string, expiresAt: int, revokedAt: Option<int>,
                         lastUsedAt: Option<int>)

  datatype Account = Active | Disabled

  predicate Live(t: Token) {
    t.revokedAt.None?
  }

  predicate HashTaken(tokens: seq<Token>, hash: string) {
    exists t | t in tokens :: t.tokenHash == hash
  }

  /** The row with this hash, or |tokens|. */
  function Find(tokens: seq<Token>, hash: string): (i: nat)
    ensures i <= |tokens|
    ensures i < |tokens| ==> tokens[i].tokenHash == hash
    ensures i == |tokens| ==> !HashTaken(tokens, hash)
  {
    if tokens == [] then 0
    else if tokens[0].tokenHash == hash then 0
    else
      assert tokens == [tokens[0]] + tokens[1..];
      1 + Find(tokens[1..], hash)
  }

  function Use(t: Token, now: int): Token {
    t.(revokedAt := Some(now), lastUsedAt := Some(now))
  }

  /** The row a refresh may rotate: known, unrevoked, unexpired and of an active account. */
  predicate Rotatable(tokens: seq<Token>, accounts: map<nat, Account>, hash: string, now: int) {
    var i := Find(tokens, hash);
    && i < |tokens| && Live(tokens[i]) && now <= tokens[i].expiresAt
    && tokens[i].userId in accounts && accounts[tokens[i].userId] == Active
  }

  function Issue(tokens: seq<Token>, userId: nat, hash: string, expiresAt: int): seq<Token> {
    if HashTaken(tokens, hash) then tokens else tokens + [Token(userId, hash, expiresAt, None, None)]
  }

  predicate Refreshes(tokens: seq<Token>, accounts: map<nat, Account>, hash: string, newHash: string, now: int) {
    Rotatable(tokens, accounts, hash, now) && !HashTaken(tokens, newHash)
  }

  function Refresh(tokens: seq<Token>, accounts: map<nat, Account>, hash: string, newHash: string, newExpiry: int,
                   now: int): seq<Token>
  {
    if !Refreshes(tokens, accounts, hash, newHash, now) then tokens
    else
      var i := Find(tokens, hash);
      tokens[i := Use(tokens[i], now)] + [Token(tokens[i].userId, newHash, newExpiry, None, None)]
  }

  function Logout(tokens: seq<Token>, hash: string, now: int): seq<Token> {
    var i := Find(tokens, hash);
    if i < |tokens| && Live(tokens[i]) then tokens[i := Use(tokens[i], now)] else tokens
  }

  function RevokeAll(tokens: seq<Token>, userId: nat, now: int): seq<Token> {
    seq(|tokens|, i requires 0 <= i < |tokens| =>
      if tokens[i].userId == userId && Live(tokens[i]) then tokens[i].(revokedAt := Some(now)) else tokens[i])
  }

  class RefreshTokenStore {
    var tokens: seq<Token>
    const hashOf: string -> string

    constructor (hashOf: string -> string)
      ensures tokens == [] && this.hashOf == hashOf
    {
      tokens, this.hashOf := [], hashOf;
    }

    method IssueToken(userId: nat, newToken: string, expiresAt: int) returns (ok: bool)
      modifies this
      ensures tokens == Issue(old(tokens), userId, hashOf(newToken), expiresAt)
      ensures ok <==> !HashTaken(old(tokens), hashOf(newToken))
    {
      ok := !HashTaken(tokens, hashOf(newToken));
      if ok {
        tokens := tokens + [Token(userId, hashOf(newToken), expiresAt, None, None)];
      }
    }

    /** The whole rotation is one transaction: a hash collision undoes the revocation. */
    method RefreshSession(raw: string, accounts: map<nat, Account>, newToken: string, newExpiry: int, now: int)
      returns (ok: bool)
      modifies this
      ensures tokens == if TrimSpace(raw) == "" then old(tokens)
                        else Refresh(old(tokens), accounts, hashOf(TrimSpace(raw)), hashOf(newToken), newExpiry, now)
      ensures ok <==> TrimSpace(raw) != ""
                      && Refreshes(old(tokens), accounts, hashOf(TrimSpace(raw)), hashOf(newToken), now)
    {
      var token := TrimSpace(raw);
      if token == "" {
        return false;
      }
      var before := tokens;
      var i := Find(tokens, hashOf(token));
      if i == |tokens| {
        return false;
      }
      var stored := tokens[i];
      if stored.revokedAt.Some? || now > stored.expiresAt {
        return false;
      }
      if stored.userId !in accounts || accounts[stored.userId] != Active {
        return false;
      }
      tokens := tokens[i := Use(stored, now)];
      if HashTaken(before, hashOf(newToken)) {
        tokens := before;
        return false;
      }
      tokens := tokens + [Token(stored.userId, hashOf(newToken), newExpiry, None, None)];
      return true;
    }

    method EndSession(raw: string, now: int)
      modifies this
      ensures tokens == if TrimSpace(raw) == "" then old(tokens) else Logout(old(tokens), hashOf(TrimSpace(raw)), now)
    {
      var token := TrimSpace(raw);
      if token == "" {
        return;
      }
      var i := Find(tokens, hashOf(token));
      if i < |tokens| && Live(tokens[i]) {
        tokens := tokens[i := Use(tokens[i], now)];
      }
    }

    method RevokeAllOf(userId: nat, now: int)
      modifies this
      ensures tokens == RevokeAll(old(tokens), userId, now)
    {
      ghost var before := tokens;
      for i := 0 to |tokens|
        invariant |tokens| == |before|
        invariant forall j | 0 <= j < i :: tokens[j] == RevokeAll(before, userId, now)[j]
        invariant forall j | i <= j < |tokens| :: tokens[j] == before[j]
      {
        if tokens[i].userId == userId && Live(tokens[i]) {
          tokens := tokens[i := tokens[i].(revokedAt := Some(now))];
        }
      }
    }
  }

  // ---- whole runs, with the history the table does not store ----

  datatype Event =
    | LoginEvent(userId: nat, hash: string, expiresAt: int)
    | RefreshEvent(accounts: map<nat, Account>, hash: string, newHash: string, newExpiry: int, now: int)
    | LogoutEvent(hash: string, now: int)
    | RevokeAllEvent(userId: nat, now: int)

  /** login[i] is the token of the login that token i descends from; parent[i] is the token it replaced. */
  datatype History = History(tokens: seq<Token>, login: seq<nat>, parent: seq<Option<nat>>)

  function Next(h: History, e: Event): History {
    match e
    case LoginEvent(u, hash, exp) =>
      if HashTaken(h.tokens, hash) then h
      else History(Issue(h.tokens, u, hash, exp), h.login + [|h.tokens|], h.parent + [None])
    case RefreshEvent(acc, hash, newHash, newExpiry, now) =>
      var i := Find(h.tokens, hash);
      if !Refreshes(h.tokens, acc, hash, newHash, now) || i >= |h.login| then h
      else History(Refresh(h.tokens, acc, hash, newHash, newExpiry, now), h.login + [h.login[i]], h.parent + [Some(i)])
    case LogoutEvent(hash, now) => h.(tokens := Logout(h.tokens, hash, now))
    case RevokeAllEvent(u, now) => h.(tokens := RevokeAll(h.tokens, u, now))
  }

  function Run(h: History, events: seq<Event>): History
    decreases |events|
  {
    if events == [] then h else Run(Next(h, events[0]), events[1..])
  }

  ghost predicate Aligned(h: History) {
    && |h.login| == |h.parent| == |h.tokens|
    && forall i {:trigger h.login[i]} | 0 <= i < |h.tokens| ::
       h.login[i] <= i && h.tokens[h.login[i]].userId == h.tokens[i].userId
  }

  ghost predicate HashesDiffer(h: History) {
    forall i, j | 0 <= i < j < |h.tokens| :: h.tokens[i].tokenHash != h.tokens[j].tokenHash
  }

  ghost predicate OnlyLatestLive(h: History) {
    |h.login| == |h.tokens| &&
    forall i, j | 0 <= i < j < |h.tokens| && h.login[i] == h.login[j] :: !Live(h.tokens[i])
  }

  ghost predicate ParentsRetired(h: History) {
    && |h.parent| == |h.tokens|
    && (forall j | 0 <= j < |h.tokens| && h.parent[j].Some? ::
        h.parent[j].value < j && !Live(h.tokens[h.parent[j].value]))
    && (forall i, j | 0 <= i < j < |h.tokens| && h.parent[j].Some? :: h.parent[i] != h.parent[j])
  }

  ghost predicate Sound(h: History) {
    Aligned(h) && HashesDiffer(h) && OnlyLatestLive(h) && ParentsRetired(h)
  }

  lemma NextIsSound(h: History, e: Event)
    requires Sound(h)
    ensures Sound(Next(h, e))
  {
    hide Sound, HashTaken, Refresh, Refreshes;
    match e {
      case LoginEvent(u, hash, exp) =>
        if !HashTaken(h.tokens, hash) { LoginIsSound(h, Token(u, hash, exp, None, None)); }
      case RefreshEvent(acc, hash, newHash, newExpiry, now) =>
        if Refreshes(h.tokens, acc, hash, newHash, now) { RefreshIsSound(h, acc, hash, newHash, newExpiry, now); }
      case LogoutEvent(hash, now) => RetireIsSound(h, Logout(h.tokens, hash, now));
      case RevokeAllEvent(u, now) => RetireIsSound(h, RevokeAll(h.tokens, u, now));
    }
  }

  lemma LoginIsSound(h: History, t: Token)
    requires Sound(h) && !HashTaken(h.tokens, t.tokenHash)
    ensures Sound(History(h.tokens + [t], h.login + [|h.tokens|], h.parent + [None]))
  {
    forall i | 0 <= i < |h.tokens| ensures h.tokens[i].tokenHash != t.tokenHash {
      assert h.tokens[i] in h.tokens;
    }
  }

  /** Logout and revoke-all only take the life of some rows. */
  lemma RetireIsSound(h: History, tokens: seq<Token>)
    requires Sound(h) && |tokens| == |h.tokens|
    requires forall i | 0 <= i < |tokens| ::
               tokens[i].userId == h.tokens[i].userId && tokens[i].tokenHash == h.tokens[i].tokenHash
               && (Live(tokens[i]) ==> Live(h.tokens[i]))
    ensures Sound(h.(tokens := tokens))
  {
  }

  lemma RefreshIsSound(h: History, accounts: map<nat, Account>, hash: string, newHash: string, newExpiry: int, now: int)
    requires Sound(h) && Refreshes(h.tokens, accounts, hash, newHash, now)
    ensures Sound(Next(h, RefreshEvent(accounts, hash, newHash, newExpiry, now)))
  {
    var i := Find(h.tokens, hash);
    forall k | 0 <= k < |h.tokens| ensures h.tokens[k].tokenHash != newHash {
      assert h.tokens[k] in h.tokens;
    }
    var next := Token(h.tokens[i].userId, newHash, newExpiry, None, None);
    RotateIsSound(h, i, Use(h.tokens[i], now), next);
  }

  /** Retiring a live token and appending its successor, whatever the two rows look like otherwise. */
  lemma RotateIsSound(h: History, i: nat, used: Token, next: Token)
    requires Sound(h) && i < |h.tokens| && Live(h.tokens[i])
    requires !Live(used) && used.userId == h.tokens[i].userId && used.tokenHash == h.tokens[i].tokenHash
    requires next.userId == used.userId && forall k | 0 <= k < |h.tokens| :: h.tokens[k].tokenHash != next.tokenHash
    ensures Sound(History(h.tokens[i := used] + [next], h.login + [h.login[i]], h.parent + [Some(i)]))
  {
    var h' := History(h.tokens[i := used] + [next], h.login + [h.login[i]], h.parent + [Some(i)]);
    RotateMovesTheLive(h, i, used, next);
    assert Aligned(h') && HashesDiffer(h');
    assert ParentsRetired(h') by {
      hide Aligned, HashesDiffer, OnlyLatestLive;
    }
  }

  lemma RotateMovesTheLive(h: History, i: nat, used: Token, next: Token)
    requires OnlyLatestLive(h) && i < |h.tokens| && Live(h.tokens[i]) && !Live(used)
    ensures OnlyLatestLive(History(h.tokens[i := used] + [next], h.login + [h.login[i]], h.parent + [Some(i)]))
  {
  }

  /** In every run, each login has at most one live token and each token at most one successor. */
  lemma {:induction false} OneLiveTokenPerLogin(h: History, events: seq<Event>)
    requires Sound(h)
    ensures Sound(Run(h, events))
    ensures var r := Run(h, events);
            && (forall i, j | 0 <= i < |r.tokens| && 0 <= j < |r.tokens| && r.login[i] == r.login[j]
                              && Live(r.tokens[i]) && Live(r.tokens[j]) :: i == j)
            && (forall i, j | 0 <= i < |r.tokens| && 0 <= j < |r.tokens| && r.parent[i].Some?
                              && r.parent[i] == r.parent[j] :: i == j)
    decreases |events|
  {
    if events != [] {
      NextIsSound(h, events[0]);
      OneLiveTokenPerLogin(Next(h, events[0]), events[1..]);
    }
  }

  // ---- counting a user's live tokens ----

  function LiveCount(tokens: seq<Token>, userId: nat): nat {
    if tokens == [] then 0
    else
      var t := tokens[|tokens| - 1];
      LiveCount(tokens[..|tokens| - 1], userId) + (if t.userId == userId && Live(t) then 1 else 0)
  }

  lemma {:induction false} LiveCountUpdate(tokens: seq<Token>, i: nat, t: Token, userId: nat)
    requires i < |tokens| && t.userId == tokens[i].userId
    ensures LiveCount(tokens[i := t], userId) + (if t.userId == userId && Live(tokens[i]) then 1 else 0)
            == LiveCount(tokens, userId) + (if t.userId == userId && Live(t) then 1 else 0)
  {
    var n := |tokens| - 1;
    if i == n {
      assert tokens[i := t][..n] == tokens[..n];
    } else {
      assert tokens[i := t][..n] == tokens[..n][i := t];
      LiveCountUpdate(tokens[..n], i, t, userId);
    }
  }

  /** A refresh replaces one live token by one: no user's number of live tokens changes. */
  lemma RefreshConservesLiveTokens(tokens: seq<Token>, accounts: map<nat, Account>, hash: string, newHash: string,
                                   newExpiry: int, now: int, userId: nat)
    ensures LiveCount(Refresh(tokens, accounts, hash, newHash, newExpiry, now), userId) == LiveCount(tokens, userId)
  {
    if Refreshes(tokens, accounts, hash, newHash, now) {
      var i := Find(tokens, hash);
      var used := tokens[i := Use(tokens[i], now)];
      LiveCountUpdate(tokens, i, Use(tokens[i], now), userId);
      assert Refresh(tokens, accounts, hash, newHash, newExpiry, now)[..|tokens|] == used;
    }
  }

  // ---- revoking everything ----

  /** Every token of the user's logins up to bound is dead. */
  ghost predicate LoginsDead(h: History, userId: nat, bound: nat) {
    |h.login| == |h.tokens| &&
    forall i | 0 <= i < |h.tokens| && h.login[i] < bound && h.tokens[i].userId == userId :: !Live(h.tokens[i])
  }

  /** The table only grows, and a row keeps its owner, its hash and its login. */
  ghost predicate Extends(h: History, r: History) {
    && |h.tokens| <= |r.tokens| && |h.login| == |h.tokens| && |r.login| == |r.tokens|
    && forall i | 0 <= i < |h.tokens| ::
         r.tokens[i].userId == h.tokens[i].userId && r.tokens[i].tokenHash == h.tokens[i].tokenHash
         && r.login[i] == h.login[i]
  }

  lemma NextExtends(h: History, e: Event, userId: nat, bound: nat)
    requires bound <= |h.tokens| && LoginsDead(h, userId, bound)
    ensures Extends(h, Next(h, e)) && LoginsDead(Next(h, e), userId, bound)
  {
  }

  lemma {:induction false} DeadLoginsStayDead(h: History, events: seq<Event>, userId: nat, bound: nat)
    requires Sound(h) && bound <= |h.tokens| && LoginsDead(h, userId, bound)
    ensures Extends(h, Run(h, events)) && Sound(Run(h, events)) && LoginsDead(Run(h, events), userId, bound)
    decreases |events|
  {
    hide HashesDiffer, OnlyLatestLive, ParentsRetired, LoginsDead;
    if events != [] {
      hide Next;
      NextIsSound(h, events[0]);
      NextExtends(h, events[0], userId, bound);
      DeadLoginsStayDead(Next(h, events[0]), events[1..], userId, bound);
    }
  }

  /**
   * After revoke-all, no token the user held before, and nothing descended from one, is ever live
   * again: presenting such a token changes nothing, whatever happens in between.
   */
  lemma RevokeAllIsFinal(h: History, userId: nat, at: int, events: seq<Event>, i: nat,
                         accounts: map<nat, Account>, newHash: string, now: int)
    requires Sound(h) && i < |h.tokens| && h.tokens[i].userId == userId
    ensures var r := Run(Next(h, RevokeAllEvent(userId, at)), events);
            && LoginsDead(r, userId, |h.tokens|)
            && !Refreshes(r.tokens, accounts, h.tokens[i].tokenHash, newHash, now)
  {
    hide OnlyLatestLive, ParentsRetired, Run;
    var h1 := Next(h, RevokeAllEvent(userId, at));
    NextIsSound(h, RevokeAllEvent(userId, at));
    DeadLoginsStayDead(h1, events, userId, |h.tokens|);
    DeadTokenIsUseless(h1, Run(h1, events), userId, |h.tokens|, i, accounts, newHash, now);
  }

  lemma DeadTokenIsUseless(h: History, r: History, userId: nat, bound: nat, i: nat,
                           accounts: map<nat, Account>, newHash: string, now: int)
    requires Aligned(h) && Extends(h, r) && HashesDiffer(r) && LoginsDead(r, userId, bound)
    requires i < bound <= |h.tokens| && h.tokens[i].userId == userId
    ensures !Refreshes(r.tokens, accounts, h.tokens[i].tokenHash, newHash, now)
  {
  }

  // ---- exactly which refreshes succeed, and what the operations write ----

  /**
   * A row that may be exchanged: its hash is the presented one, it is unrevoked and in time, and
   * its user is active.
   */
  ghost predicate Exchangeable(tokens: seq<Token>, accounts: map<nat, Account>, hash: string, now: int, i: nat)
    requires i < |tokens|
  {
    && tokens[i].tokenHash == hash && tokens[i].revokedAt == None && !(now > tokens[i].expiresAt)
    && tokens[i].userId in accounts && accounts[tokens[i].userId] != Disabled
  }

  ghost predicate UniqueHashes(tokens: seq<Token>) {
    forall i, j | 0 <= i < j < |tokens| :: tokens[i].tokenHash != tokens[j].tokenHash
  }

  lemma FindExactly(tokens: seq<Token>, hash: string, i: nat)
    requires UniqueHashes(tokens) && i < |tokens| && tokens[i].tokenHash == hash
    ensures Find(tokens, hash) == i
  {
    assert tokens[i] in tokens;
    var j := Find(tokens, hash);
  }

  /**
   * With unique hashes, a refresh succeeds exactly when the presented token has an exchangeable row
   * and the new hash is free. That row is then revoked and stamped, one live row of the same user
   * with the new hash and expiry is appended, and no other row changes.
   */
  lemma RefreshExactly(tokens: seq<Token>, accounts: map<nat, Account>, hash: string, newHash: string, newExpiry: int,
                       now: int)
    requires UniqueHashes(tokens)
    ensures Refreshes(tokens, accounts, hash, newHash, now)
            <==> (exists i :: 0 <= i < |tokens| && Exchangeable(tokens, accounts, hash, now, i))
                 && !(exists t | t in tokens :: t.tokenHash == newHash)
    ensures forall i | 0 <= i < |tokens| && Exchangeable(tokens, accounts, hash, now, i)
                       && Refreshes(tokens, accounts, hash, newHash, now) ::
              var tokens' := Refresh(tokens, accounts, hash, newHash, newExpiry, now);
              && |tokens'| == |tokens| + 1
              && (forall k | 0 <= k < |tokens| && k != i :: tokens'[k] == tokens[k])
              && tokens'[i] == tokens[i].(revokedAt := Some(now), lastUsedAt := Some(now))
              && tokens'[|tokens|] == Token(tokens[i].userId, newHash, newExpiry, None, None)
    ensures !Refreshes(tokens, accounts, hash, newHash, now) ==>
              Refresh(tokens, accounts, hash, newHash, newExpiry, now) == tokens
  {
    hide UniqueHashes;
    forall i | 0 <= i < |tokens| && tokens[i].tokenHash == hash ensures Find(tokens, hash) == i {
      FindExactly(tokens, hash, i);
    }
    var j := Find(tokens, hash);
    if Rotatable(tokens, accounts, hash, now) { assert Exchangeable(tokens, accounts, hash, now, j); }
    assert HashTaken(tokens, newHash) <==> exists t | t in tokens :: t.tokenHash == newHash;
  }

  /** A login adds one unrevoked row of the user with the new hash and expiry, unless the hash exists. */
  lemma IssueExactly(tokens: seq<Token>, userId: nat, hash: string, expiresAt: int)
    ensures (exists t | t in tokens :: t.tokenHash == hash) ==> Issue(tokens, userId, hash, expiresAt) == tokens
    ensures !(exists t | t in tokens :: t.tokenHash == hash) ==>
              var tokens' := Issue(tokens, userId, hash, expiresAt);
              && |tokens'| == |tokens| + 1 && tokens'[..|tokens|] == tokens
              && tokens'[|tokens|] == Token(userId, hash, expiresAt, None, None)
  {
    assert HashTaken(tokens, hash) <==> exists t | t in tokens :: t.tokenHash == hash;
  }

  /** Logging out revokes and stamps the presented token's row if it is unrevoked, and touches no other. */
  lemma LogoutExactly(tokens: seq<Token>, hash: string, now: int)
    requires UniqueHashes(tokens)
    ensures var tokens' := Logout(tokens, hash, now);
            && |tokens'| == |tokens|
            && forall i | 0 <= i < |tokens| ::
                 tokens'[i] == if tokens[i].tokenHash == hash && tokens[i].revokedAt == None
                               then tokens[i].(revokedAt := Some(now), lastUsedAt := Some(now))
                               else tokens[i]
  {
    hide UniqueHashes;
    forall i | 0 <= i < |tokens| && tokens[i].tokenHash == hash ensures Find(tokens, hash) == i {
      FindExactly(tokens, hash, i);
    }
  }

  /** Revoking everything gives each unrevoked row of the user a revocation time and changes nothing else. */
  lemma RevokeAllExactly(tokens: seq<Token>, userId: nat, now: int)
    ensures var tokens' := RevokeAll(tokens, userId, now);
            && |tokens'| == |tokens|
            && forall i | 0 <= i < |tokens| ::
                 && (tokens[i].userId == userId ==> tokens'[i].revokedAt.Some?)
                 && (tokens[i].userId != userId || tokens[i].revokedAt.Some? ==> tokens'[i] == tokens[i])
                 && (tokens[i].userId == userId && tokens[i].revokedAt == None ==>
                       tokens'[i] == tokens[i].(revokedAt := Some(now)))
  {
  }

  /** A token that a login or a refresh has just issued is exchanged at its first use in time, and not at its second. */
  lemma FreshTokenWorksOnce(tokens: seq<Token>, accounts: map<nat, Account>, t: Token, newHash: string, newExpiry: int,
                            now: int, again: string, later: int)
    requires UniqueHashes(tokens + [t]) && t.revokedAt == None && now <= t.expiresAt
    requires t.userId in accounts && accounts[t.userId] == Active && !HashTaken(tokens + [t], newHash)
    ensures Refreshes(tokens + [t], accounts, t.tokenHash, newHash, now)
    ensures var tokens' := Refresh(tokens + [t], accounts, t.tokenHash, newHash, newExpiry, now);
            !Refreshes(tokens', accounts, t.tokenHash, again, later)
  {
    var before := tokens + [t];
    assert before[|tokens|] == t && Exchangeable(before, accounts, t.tokenHash, now, |tokens|);
    RefreshExactly(before, accounts, t.tokenHash, newHash, newExpiry, now);
    var after := Refresh(before, accounts, t.tokenHash, newHash, newExpiry, now);
    hide Refresh, UniqueHashes;
    forall i, j | 0 <= i < j < |after| ensures after[i].tokenHash != after[j].tokenHash {
      assert UniqueHashes(before) && (forall x | x in before :: x.tokenHash != newHash);
      assert i < |before| ==> before[i] in before && after[i].tokenHash == before[i].tokenHash;
      assert j < |before| ==> before[j] in before && after[j].tokenHash == before[j].tokenHash;
      HashesDifferAt(before, i, j);
    }
    UniqueByPairs(after);
    FindExactly(after, t.tokenHash, |tokens|);
  }

  lemma HashesDifferAt(tokens: seq<Token>, i: nat, j: nat)
    requires UniqueHashes(tokens) && i < j
    ensures j < |tokens| ==> tokens[i].tokenHash != tokens[j].tokenHash
  {
  }

  lemma UniqueByPairs(tokens: seq<Token>)
    requires forall i, j | 0 <= i < j < |tokens| :: tokens[i].tokenHash != tokens[j].tokenHash
    ensures UniqueHashes(tokens)
  {
  }
}
