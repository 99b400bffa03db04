/** Refresh tokens: rotation, replay detection and logout. */
module Sessions {
  import opened Common

  /** One row of `refresh_tokens`; rows are named by their position. `session` is the login a
      token descends from. */
  datatype Token = Token(user: nat, expires: int, revoked: bool, replacedBy: Option<nat>, session: nat)

  const LIFETIME: int := 7 * 86400

  function Revoke(tokens: seq<Token>, t: nat): seq<Token>
    requires t < |tokens|
  {
    tokens[t := tokens[t].(revoked := true)]
  }

  /** UPDATE ... WHERE user_id = u AND revoked_at IS NULL, over the rows a statement that
      started when there were `seen` of them can see. */
  function RevokeAll(tokens: seq<Token>, user: nat, seen: nat): (after: seq<Token>)
    ensures |after| == |tokens|
  {
    seq(|tokens|, i requires 0 <= i < |tokens| =>
      if i < seen && tokens[i].user == user then tokens[i].(revoked := true) else tokens[i])
  }

  /** The presented token is revoked and linked to the one that replaces it. */
  function Rotate(tokens: seq<Token>, t: nat, now: int): seq<Token>
    requires t < |tokens|
  {
    tokens[t := tokens[t].(revoked := true, replacedBy := Some(|tokens|))]
    + [Token(tokens[t].user, now + LIFETIME, false, None, tokens[t].session)]
  }

  datatype Verdict = Unknown | Reused | Expired | Inactive | Exchange

  /** The order in which `refresh` asks. */
  function Judge(tokens: seq<Token>, active: set<nat>, t: nat, now: int): Verdict {
    if t >= |tokens| then Unknown
    else if tokens[t].revoked then Reused
    else if tokens[t].expires <= now then Expired
    else if tokens[t].user !in active then Inactive
    else Exchange
  }

  predicate Live(tokens: seq<Token>, i: nat) {
    i < |tokens| && !tokens[i].revoked
  }

  // ----- one request at a time ------------------------------------------------------------------

  class Store {
    var tokens: seq<Token>
    var logins: nat
    var active: set<nat>

    constructor (active: set<nat>)
      ensures tokens == [] && logins == 0 && this.active == active
    {
      tokens, logins, this.active := [], 0, active;
    }

    method Login(user: nat, now: int) returns (issued: nat)
      modifies this`tokens, this`logins
      ensures issued == |old(tokens)| && |tokens| == issued + 1 && tokens[..issued] == old(tokens)
      ensures tokens[issued] == Token(user, now + 604_800, false, None, old(logins)) && logins == old(logins) + 1
    {
      issued := |tokens|;
      tokens := tokens + [Token(user, now + LIFETIME, false, None, logins)];
      logins := logins + 1;
    }

    /** `refresh`. A token is exchanged exactly when it is known, not used, not expired and of an
        active user; then it alone dies, and one token of the same session takes its place for
        seven days. A replay, and a token of a deactivated user, end every session the user has;
        an expired token ends alone; an unknown one changes nothing. */
    method Refresh(t: nat, now: int) returns (issued: Option<nat>)
      modifies this`tokens
      ensures issued.Some? <==>
                && t < |old(tokens)| && !old(tokens)[t].revoked
                && old(tokens)[t].expires > now && old(tokens)[t].user in active
      ensures issued.Some? ==>
                && issued.value == |old(tokens)| && |tokens| == issued.value + 1
                && tokens[t] == old(tokens)[t].(revoked := true, replacedBy := issued)
                && tokens[issued.value]
                   == Token(old(tokens)[t].user, now + 604_800, false, None, old(tokens)[t].session)
                && forall i: nat | i < |old(tokens)| && i != t :: tokens[i] == old(tokens)[i]
      ensures t >= |old(tokens)| ==> tokens == old(tokens)
      ensures t < |old(tokens)|
              && (old(tokens)[t].revoked || (old(tokens)[t].expires > now && old(tokens)[t].user !in active)) ==>
                |tokens| == |old(tokens)| && forall i: nat | i < |tokens| ::
                  tokens[i] == if old(tokens)[i].user == old(tokens)[t].user
                               then old(tokens)[i].(revoked := true) else old(tokens)[i]
      ensures t < |old(tokens)| && !old(tokens)[t].revoked && old(tokens)[t].expires <= now ==>
                tokens == old(tokens)[t := old(tokens)[t].(revoked := true)]
    {
      match Judge(tokens, active, t, now) {
        case Unknown => return None;
        case Reused => tokens := RevokeAll(tokens, tokens[t].user, |tokens|);
        case Expired => tokens := Revoke(tokens, t);
        case Inactive => tokens := RevokeAll(tokens, tokens[t].user, |tokens|);
        case Exchange =>
          issued := Some(|tokens|);
          tokens := Rotate(tokens, t, now);
          return;
      }
      issued := None;
    }

    /** `logout`: the presented session ends, and no other; a second time changes nothing. */
    method Logout(t: nat)
      modifies this`tokens
      ensures |tokens| == |old(tokens)| && !Live(tokens, t)
      ensures forall i: nat | i < |tokens| && i != t :: tokens[i] == old(tokens)[i]
      ensures !Live(old(tokens), t) ==> tokens == old(tokens)
    {
      if t < |tokens| && !tokens[t].revoked { tokens := Revoke(tokens, t); }
    }
  }

  // ----- interleaved transactions ---------------------------------------------------------------

  /** A transaction that has read its token and holds the row lock. `Revoking` has started its
      UPDATE when the table had `seen` rows. */
  datatype Tx = Exchanging(token: nat) | Revoking(token: nat, seen: nat)

  datatype World = World(now: int, tokens: seq<Token>, logins: seq<nat>, active: set<nat>, txs: map<nat, Tx>)

  datatype Step =
    | Login(user: nat)
    | Present(tx: nat, token: nat)
    | Commit(tx: nat)
    | Abort(tx: nat)
    | Logout(token: nat)
    | SetActive(user: nat, yes: bool)
    | Tick(seconds: nat)

  const START := World(0, [], [], {}, map[])

  predicate Locked(w: World, t: nat) {
    exists k | k in w.txs :: w.txs[k].token == t
  }

  /** The row locks an UPDATE over a user's live rows waits for. */
  predicate Waits(w: World, user: nat, seen: nat) {
    exists k | k in w.txs ::
      w.txs[k].Exchanging? && w.txs[k].token < seen && w.txs[k].token < |w.tokens|
          && w.tokens[w.txs[k].token].user == user
  }

  predicate Enabled(w: World, step: Step) {
    match step
    case Login(user) => user in w.active
    case Present(k, _) => k !in w.txs
    case Commit(k) => k in w.txs && w.txs[k].token < |w.tokens|
        && (w.txs[k].Revoking? ==> !Waits(w, w.tokens[w.txs[k].token].user, w.txs[k].seen))
    case Abort(k) => k in w.txs
    case _ => true
  }

  function Next(w: World, step: Step): World
    requires Enabled(w, step)
  {
    match step
    case Login(user) =>
      w.(tokens := w.tokens + [Token(user, w.now + LIFETIME, false, None, |w.logins|)], logins := w.logins + [user])
    case Present(k, t) =>
      if Locked(w, t) then w   // SKIP LOCKED: as if unknown
      else (match Judge(w.tokens, w.active, t, w.now)
            case Unknown => w
            case Expired => w.(tokens := Revoke(w.tokens, t))
            case Exchange => w.(txs := w.txs[k := Exchanging(t)])
            case _ => w.(txs := w.txs[k := Revoking(t, |w.tokens|)]))
    case Commit(k) =>
      var t := w.txs[k].token;
      w.(tokens := if w.txs[k].Exchanging? then Rotate(w.tokens, t, w.now)
                   else RevokeAll(w.tokens, w.tokens[t].user, w.txs[k].seen),
         txs := w.txs - {k})
    case Abort(k) => w.(txs := w.txs - {k})
    case Logout(t) =>
      // A logout that has to wait for an exchange finds its token revoked already.
      if Live(w.tokens, t) && !Locked(w, t) then w.(tokens := Revoke(w.tokens, t)) else w
    case SetActive(user, yes) => w.(active := if yes then w.active + {user} else w.active - {user})
    case Tick(seconds) => w.(now := w.now + seconds)
  }

  function After(w: World, steps: seq<Step>): World {
    if steps == [] then w
    else
      var before := After(w, steps[..|steps| - 1]);
      var step := steps[|steps| - 1];
      if Enabled(before, step) then Next(before, step) else before
  }

  // ----- what every step keeps ------------------------------------------------------------------

  /** Replacements are newer, in the same session, of a dead token, and of one token only. */
  ghost predicate Chained(tokens: seq<Token>) {
    && (forall i | 0 <= i < |tokens| && tokens[i].replacedBy.Some? ::
          var n := tokens[i].replacedBy.value;
          i < n < |tokens| && tokens[i].revoked && tokens[n].user == tokens[i].user
              && tokens[n].session == tokens[i].session)
    && (forall i, j | 0 <= i < j < |tokens| && tokens[i].replacedBy.Some? ::
          tokens[i].replacedBy != tokens[j].replacedBy)
  }

  /** A session has one live token at most. */
  ghost predicate OneLive(tokens: seq<Token>) {
    forall i, j | 0 <= i < j < |tokens| && !tokens[i].revoked && !tokens[j].revoked ::
      tokens[i].session != tokens[j].session
  }

  ghost predicate Rooted(w: World) {
    forall i | 0 <= i < |w.tokens| ::
      w.tokens[i].session < |w.logins| && w.logins[w.tokens[i].session] == w.tokens[i].user
  }

  /** An exchange under way holds a live token, alone. */
  ghost predicate LocksHold(w: World) {
    && (forall k | k in w.txs :: w.txs[k].token < |w.tokens|)
    && (forall k | k in w.txs && w.txs[k].Exchanging? :: !w.tokens[w.txs[k].token].revoked)
    && (forall k, l | k in w.txs && l in w.txs && k != l :: w.txs[k].token != w.txs[l].token)
  }

  ghost predicate Sound(w: World) {
    Chained(w.tokens) && OneLive(w.tokens) && Rooted(w) && LocksHold(w)
  }

  /** A token's owner and session are fixed, a dead token stays dead, a link is never rewritten. */
  ghost predicate Progress(before: seq<Token>, after: seq<Token>) {
    && |before| <= |after|
    && forall i | 0 <= i < |before| ::
         && after[i].user == before[i].user && after[i].session == before[i].session
         && (before[i].revoked ==> after[i].revoked && after[i].replacedBy == before[i].replacedBy)
  }

  lemma RotatingKeeps(tokens: seq<Token>, t: nat, now: int)
    requires Chained(tokens) && OneLive(tokens) && Live(tokens, t)
    ensures Chained(Rotate(tokens, t, now)) && OneLive(Rotate(tokens, t, now))
            && Progress(tokens, Rotate(tokens, t, now))
  {
    var after := Rotate(tokens, t, now);
    assert tokens[t].replacedBy.None?;
    forall i, j | 0 <= i < j < |after| && !after[i].revoked && !after[j].revoked
      ensures after[i].session != after[j].session
    {
      if j == |tokens| && i < t {
        assert tokens[i].session != tokens[t].session;
      } else if j == |tokens| && i > t {
        assert tokens[t].session != tokens[i].session;
      }
    }
  }

  lemma RotateKeeps(w: World, k: nat)
    requires Sound(w) && k in w.txs && w.txs[k].Exchanging? && Enabled(w, Commit(k))
    ensures Sound(Next(w, Commit(k))) && Progress(w.tokens, Next(w, Commit(k)).tokens)
  {
    hide Chained, OneLive, Progress;
    RotatingKeeps(w.tokens, w.txs[k].token, w.now);
  }

  /** Revoking any tokens whatsoever breaks nothing. */
  lemma KillingKeeps(before: seq<Token>, after: seq<Token>)
    requires |after| == |before| && Chained(before) && OneLive(before)
    requires forall i | 0 <= i < |before| :: after[i] == before[i] || after[i] == before[i].(revoked := true)
    ensures Chained(after) && OneLive(after) && Progress(before, after)
  {
    forall i | 0 <= i < |before|
      ensures after[i].replacedBy == before[i].replacedBy && after[i].session == before[i].session
      ensures after[i].user == before[i].user && (before[i].revoked ==> after[i].revoked)
    {
    }
  }

  lemma RootedAs(w: World, w': World)
    requires Rooted(w) && w'.logins == w.logins && Progress(w.tokens, w'.tokens) && |w'.tokens| == |w.tokens|
    ensures Rooted(w')
  {
  }

  lemma RevokeAllKeeps(w: World, k: nat)
    requires Sound(w) && k in w.txs && w.txs[k].Revoking? && Enabled(w, Commit(k))
    ensures Sound(Next(w, Commit(k))) && Progress(w.tokens, Next(w, Commit(k)).tokens)
  {
    hide Chained, OneLive, Rooted, Progress;
    var w' := Next(w, Commit(k));
    KillingKeeps(w.tokens, w'.tokens);
    RootedAs(w, w');
    forall l | l in w'.txs && w'.txs[l].Exchanging?
      ensures !w'.tokens[w'.txs[l].token].revoked
    {
      assert w.txs[l].Exchanging? && w.txs[l].token < |w.tokens|;
    }
  }

  lemma LoginKeeps(w: World, user: nat)
    requires Sound(w) && Enabled(w, Login(user))
    ensures Sound(Next(w, Login(user))) && Progress(w.tokens, Next(w, Login(user)).tokens)
  {
  }

  lemma RevokeKeeps(w: World, t: nat)
    requires Sound(w) && t < |w.tokens| && !Locked(w, t)
    ensures var w' := w.(tokens := Revoke(w.tokens, t)); Sound(w') && Progress(w.tokens, w'.tokens)
  {
    hide Chained, OneLive, Rooted, Progress;
    var w' := w.(tokens := Revoke(w.tokens, t));
    KillingKeeps(w.tokens, w'.tokens);
    RootedAs(w, w');
    forall k | k in w.txs ensures w.txs[k].token != t {
    }
  }

  lemma SameTokens(w: World, w': World)
    requires Sound(w) && w'.tokens == w.tokens && w'.logins == w.logins && LocksHold(w')
    ensures Sound(w') && Progress(w.tokens, w'.tokens)
  {
  }

  lemma OtherStepKeeps(w: World, step: Step)
    requires Sound(w) && Enabled(w, step) && !step.Commit?
    ensures Sound(Next(w, step)) && Progress(w.tokens, Next(w, step).tokens)
  {
    hide Chained, OneLive, Rooted, Progress, Locked, Revoke;
    match step
    case Login(user) => LoginKeeps(w, user);
    case Logout(t) =>
      SameTokens(w, w);
      if Live(w.tokens, t) && !Locked(w, t) { RevokeKeeps(w, t); }
    case Present(k, t) =>
      SameTokens(w, w);
      if !Locked(w, t) {
        if Judge(w.tokens, w.active, t, w.now).Expired? {
          RevokeKeeps(w, t);
        } else {
          LockKeeps(w, k, t);
        }
      }
    case Commit(_) => assert false;
    case Abort(_) => SameTokens(w, Next(w, step));
    case SetActive(_, _) => SameTokens(w, Next(w, step));
    case Tick(_) => SameTokens(w, Next(w, step));
  }

  lemma LockKeeps(w: World, k: nat, t: nat)
    requires Sound(w) && Enabled(w, Present(k, t)) && !Locked(w, t) && !Judge(w.tokens, w.active, t, w.now).Expired?
    ensures Sound(Next(w, Present(k, t))) && Next(w, Present(k, t)).tokens == w.tokens
  {
    hide Chained, OneLive, Rooted, Progress;
    SameTokens(w, Next(w, Present(k, t)));
  }

  lemma StepKeeps(w: World, step: Step)
    requires Sound(w) && Enabled(w, step)
    ensures Sound(Next(w, step)) && Progress(w.tokens, Next(w, step).tokens)
  {
    hide Sound, Rotate, RevokeAll, Next;
    match step
    case Commit(k) => if w.txs[k].Exchanging? { RotateKeeps(w, k); } else { RevokeAllKeeps(w, k); }
    case _ => OtherStepKeeps(w, step);
  }

  lemma {:induction false} RunsAreSound(w: World, steps: seq<Step>)
    requires Sound(w)
    ensures Sound(After(w, steps))
  {
    hide Sound, Next, Enabled;
    if steps != [] {
      var n := |steps| - 1;
      RunsAreSound(w, steps[..n]);
      if Enabled(After(w, steps[..n]), steps[n]) { StepKeeps(After(w, steps[..n]), steps[n]); }
    }
  }

  lemma {:induction false} RunsProgress(w: World, steps: seq<Step>, i: nat)
    requires Sound(w) && i <= |steps|
    ensures Progress(After(w, steps[..i]).tokens, After(w, steps).tokens)
  {
    hide Sound, Next, Enabled;
    if i == |steps| {
      assert steps[..i] == steps;
    } else {
      var n := |steps| - 1;
      assert steps[..n][..i] == steps[..i];
      RunsProgress(w, steps[..n], i);
      RunsAreSound(w, steps[..n]);
      if Enabled(After(w, steps[..n]), steps[n]) { StepKeeps(After(w, steps[..n]), steps[n]); }
    }
  }

  /** Does step `k` of the run exchange the token? */
  ghost predicate Exchanged(w: World, steps: seq<Step>, k: nat, t: nat)
    requires k < |steps|
  {
    && t < |After(w, steps[..k]).tokens| <= |After(w, steps[..k + 1]).tokens|
    && After(w, steps[..k]).tokens[t].replacedBy.None?
    && After(w, steps[..k + 1]).tokens[t].replacedBy.Some?
  }

  /** However requests interleave, a token is exchanged at most once. */
  lemma ExchangedOnce(steps: seq<Step>, k: nat, l: nat, t: nat)
    requires k < l < |steps| && Exchanged(START, steps, k, t)
    ensures !Exchanged(START, steps, l, t)
  {
    hide After;
    assert steps[..l][..k + 1] == steps[..k + 1];
    RunsProgress(START, steps[..l], k + 1);
    RunsAreSound(START, steps[..k + 1]);
  }

  /** In every run, replacement chains only ever lead to newer tokens of the same session, and
      of each session one token at most is live. */
  lemma ChainsAreSound(steps: seq<Step>)
    ensures Chained(After(START, steps).tokens) && OneLive(After(START, steps).tokens)
  {
    RunsAreSound(START, steps);
  }

  // ----- what presenting a token starts ------------------------------------------------------------

  /** A presentation exchanges only a token that is neither used nor expired, of an active user; it
      revokes a user's tokens only over one that was used or whose user is not active; an expired
      one dies alone; and an unknown or locked one changes nothing. */
  lemma PresentStarts(w: World, k: nat, t: nat)
    requires Enabled(w, Present(k, t))
    ensures var v := Next(w, Present(k, t));
            var known := t < |w.tokens| && !Locked(w, t);
            && (k in v.txs && v.txs[k].Exchanging? <==>
                  known && !w.tokens[t].revoked && w.tokens[t].expires > w.now && w.tokens[t].user in w.active)
            && (k in v.txs && v.txs[k].Revoking? <==>
                  known && (w.tokens[t].revoked || (w.tokens[t].expires > w.now && w.tokens[t].user !in w.active)))
            && (k in v.txs ==> v.txs == w.txs[k := v.txs[k]] && v.txs[k].token == t && v.tokens == w.tokens
                               && (v.txs[k].Revoking? ==> v.txs[k].seen == |w.tokens|))
            && (k !in v.txs ==> v.txs == w.txs)
            && (known && !w.tokens[t].revoked && w.tokens[t].expires <= w.now ==>
                  v.tokens == w.tokens[t := w.tokens[t].(revoked := true)])
            && (!known ==> v == w)
  {
  }

  /** What the end of a transaction does: an exchange gives one token for one, of the same session
      and for seven days; a revocation kills every row its UPDATE sees, and no other. */
  lemma CommitEnds(w: World, k: nat)
    requires Enabled(w, Commit(k))
    ensures var v := Next(w, Commit(k));
            var t := w.txs[k].token;
            && v.txs == w.txs - {k}
            && (w.txs[k].Exchanging? ==>
                  v.tokens == w.tokens[t := w.tokens[t].(revoked := true, replacedBy := Some(|w.tokens|))]
                              + [Token(w.tokens[t].user, w.now + 604_800, false, None, w.tokens[t].session)])
            && (w.txs[k].Revoking? ==>
                  |v.tokens| == |w.tokens| && forall i | 0 <= i < |w.tokens| ::
                    v.tokens[i] == if i < w.txs[k].seen && w.tokens[i].user == w.tokens[t].user
                                   then w.tokens[i].(revoked := true) else w.tokens[i])
  {
  }

  /** A revocation has to wait exactly for the exchanges of its own user on rows that it sees. */
  lemma RevocationWaits(w: World, k: nat)
    requires LocksHold(w) && k in w.txs && w.txs[k].Revoking?
    ensures Enabled(w, Commit(k)) <==>
              !exists j | j in w.txs :: w.txs[j].Exchanging? && w.txs[j].token < w.txs[k].seen
                && w.tokens[w.txs[j].token].user == w.tokens[w.txs[k].token].user
  {
    var user, seen := w.tokens[w.txs[k].token].user, w.txs[k].seen;
    if j :| j in w.txs && w.txs[j].Exchanging? && w.txs[j].token < seen && w.tokens[w.txs[j].token].user == user {
      assert w.txs[j].token < |w.tokens|;
      assert Waits(w, user, seen);
    }
  }

  /** A login adds one live token; a logout ends the presented one, unless an exchange has it. */
  lemma OtherRequests(w: World, user: nat, t: nat)
    requires user in w.active
    ensures Next(w, Login(user)).tokens == w.tokens + [Token(user, w.now + 604_800, false, None, |w.logins|)]
    ensures t < |w.tokens| && !Locked(w, t) ==>
              Next(w, Logout(t)).tokens == w.tokens[t := w.tokens[t].(revoked := true)]
    ensures t >= |w.tokens| || Locked(w, t) ==> Next(w, Logout(t)) == w
  {
    if t < |w.tokens| && w.tokens[t].revoked { assert w.tokens[t].(revoked := true) == w.tokens[t]; }
  }

  /** Was token `t` presented by `k` at step `j`, in time? */
  ghost predicate PresentedInTime(w: World, steps: seq<Step>, j: nat, k: nat, t: nat)
    requires j < |steps|
  {
    var v := After(w, steps[..j]);
    && steps[j] == Present(k, t) && t < |v.tokens|
    && !v.tokens[t].revoked && v.tokens[t].expires > v.now && v.tokens[t].user in v.active
  }

  lemma ExchangeStarts(w: World, step: Step, k: nat)
    requires Enabled(w, step) && k in Next(w, step).txs && Next(w, step).txs[k].Exchanging?
    ensures (k in w.txs && w.txs[k] == Next(w, step).txs[k])
            || (var t := Next(w, step).txs[k].token;
                step == Present(k, t) && t < |w.tokens|
                && !w.tokens[t].revoked && w.tokens[t].expires > w.now && w.tokens[t].user in w.active)
  {
  }

  /** In every run, every exchange under way is of a token that was presented unused, unexpired and
      by an active user: no step begins one on an expired token. */
  lemma {:induction false} ExchangesBeganInTime(steps: seq<Step>, k: nat)
    requires k in After(START, steps).txs && After(START, steps).txs[k].Exchanging?
    ensures exists j | 0 <= j < |steps| :: PresentedInTime(START, steps, j, k, After(START, steps).txs[k].token)
  {
    hide Next, Enabled;
    var n := |steps| - 1;
    var before := After(START, steps[..n]);
    var t := After(START, steps).txs[k].token;
    if k in before.txs && before.txs[k] == After(START, steps).txs[k] {
      ExchangesBeganInTime(steps[..n], k);
      var j: nat :| j < n && PresentedInTime(START, steps[..n], j, k, t);
      assert steps[..n][..j] == steps[..j];
      assert PresentedInTime(START, steps, j, k, t);
    } else {
      ExchangeStarts(before, steps[n], k);
      assert PresentedInTime(START, steps, n, k, t);
    }
  }

  // ----- after a replay -------------------------------------------------------------------------

  ghost predicate NoneLive(w: World, user: nat) {
    forall i | 0 <= i < |w.tokens| && w.tokens[i].user == user :: w.tokens[i].revoked
  }

  /** What a replay leaves alive was issued while its UPDATE was under way. */
  lemma RevokesWhatItSees(w: World, k: nat)
    requires Sound(w) && k in w.txs && w.txs[k].Revoking? && Enabled(w, Commit(k))
    ensures var w' := Next(w, Commit(k));
            var user := w.tokens[w.txs[k].token].user;
            && (forall i | 0 <= i < |w'.tokens| && w'.tokens[i].user == user ::
                  i < w.txs[k].seen ==> w'.tokens[i].revoked)
            && |w'.tokens| == |w.tokens|
            && forall i | w.txs[k].seen <= i < |w.tokens| :: w'.tokens[i] == w.tokens[i]
  {
  }

  predicate Owns(w: World, user: nat, t: nat) {
    t < |w.tokens| && w.tokens[t].user == user
  }

  /** An exchange of one of the user's tokens that is under way: it holds the lock on its row. */
  predicate Exchanges(w: World, user: nat, j: nat) {
    j in w.txs && w.txs[j].Exchanging? && Owns(w, user, w.txs[j].token)
  }

  /** The two steps that issue a token to a user. */
  predicate Issues(w: World, step: Step, user: nat) {
    step == Login(user) || (step.Commit? && Exchanges(w, user, step.tx))
  }

  /** A run during which transaction `k` stays open and nothing is issued to the user. */
  ghost predicate IssuesNothing(w: World, steps: seq<Step>, k: nat, user: nat) {
    forall n | 0 <= n < |steps| ::
      steps[n] != Commit(k) && steps[n] != Abort(k) && !Issues(After(w, steps[..n]), steps[n], user)
  }

  /** A run during which transaction `k` stays open and the user does nothing new: neither logs
      in nor presents a token. What is under way may end. */
  ghost predicate StartsNothing(w: World, steps: seq<Step>, k: nat, user: nat) {
    forall n | 0 <= n < |steps| ::
      && steps[n] != Commit(k) && steps[n] != Abort(k) && steps[n] != Login(user)
      && (steps[n].Present? ==> !Owns(After(w, steps[..n]), user, steps[n].token))
  }

  /** The user's tokens are all among those the UPDATE of `k` sees. */
  ghost predicate AllSeen(w: World, k: nat, tx: Tx, user: nat) {
    && k in w.txs && w.txs[k] == tx && tx.Revoking? && Owns(w, user, tx.token)
    && forall i | 0 <= i < |w.tokens| && w.tokens[i].user == user :: i < tx.seen
  }

  lemma SeenStep(w: World, step: Step, k: nat, tx: Tx, user: nat)
    requires Sound(w) && AllSeen(w, k, tx, user) && Enabled(w, step)
    requires step != Commit(k) && step != Abort(k) && !Issues(w, step, user)
    ensures AllSeen(Next(w, step), k, tx, user)
  {
    hide Chained, OneLive, Rooted, Locked;
  }

  lemma {:induction false} AllStaySeen(w: World, steps: seq<Step>, k: nat, tx: Tx, user: nat)
    requires Sound(w) && AllSeen(w, k, tx, user) && IssuesNothing(w, steps, k, user)
    ensures AllSeen(After(w, steps), k, tx, user)
  {
    hide Sound, Next, Enabled, AllSeen, Issues;
    if steps != [] {
      var n := |steps| - 1;
      forall m | 0 <= m < n
        ensures steps[..n][m] == steps[m] && steps[..n][..m] == steps[..m]
      {
      }
      AllStaySeen(w, steps[..n], k, tx, user);
      RunsAreSound(w, steps[..n]);
      if Enabled(After(w, steps[..n]), steps[n]) { SeenStep(After(w, steps[..n]), steps[n], k, tx, user); }
    }
  }

  lemma SeenAreRevoked(w: World, k: nat, user: nat)
    requires Sound(w) && k in w.txs && AllSeen(w, k, w.txs[k], user) && Enabled(w, Commit(k))
    ensures NoneLive(Next(w, Commit(k)), user)
  {
    hide Sound, Next;
    RevokesWhatItSees(w, k);
    assert |Next(w, Commit(k)).tokens| == |w.tokens|;
    RevokingKeepsOwners(w, k);
  }

  lemma RevokingKeepsOwners(w: World, k: nat)
    requires Sound(w) && k in w.txs && w.txs[k].Revoking? && Enabled(w, Commit(k))
    ensures forall i | 0 <= i < |w.tokens| :: Next(w, Commit(k)).tokens[i].user == w.tokens[i].user
  {
  }

  /** From the moment a replay is presented until its revocation commits: in every run in which
      the user is issued nothing meanwhile, the user has no live token afterwards. */
  lemma ReplayEndsEverySession(w: World, steps: seq<Step>, k: nat, user: nat)
    requires Sound(w) && k in w.txs && w.txs[k] == Revoking(w.txs[k].token, |w.tokens|)
    requires Owns(w, user, w.txs[k].token)
    requires IssuesNothing(w, steps, k, user) && Enabled(After(w, steps), Commit(k))
    ensures NoneLive(After(w, steps + [Commit(k)]), user)
  {
    hide Sound, Next, Enabled, After, IssuesNothing;
    AllStaySeen(w, steps, k, w.txs[k], user);
    RunsAreSound(w, steps);
    Snoc(w, steps, Commit(k));
    SeenAreRevoked(After(w, steps), k, user);
  }

  ghost predicate NoneExchanging(w: World, user: nat) {
    forall j | j in w.txs :: !Exchanges(w, user, j)
  }

  lemma NoneExchangingStep(w: World, step: Step, user: nat)
    requires Sound(w) && NoneExchanging(w, user) && Enabled(w, step)
    requires step != Login(user) && (step.Present? ==> !Owns(w, user, step.token))
    ensures NoneExchanging(Next(w, step), user) && !Issues(w, step, user)
  {
    hide Chained, OneLive, Rooted, Locked;
    var v := Next(w, step);
    forall j | j in v.txs ensures !Exchanges(v, user, j) {
      if j in w.txs {
        assert !Exchanges(w, user, j) && w.txs[j].token < |w.tokens|;
      }
    }
  }

  lemma {:induction false} NothingIsIssued(w: World, steps: seq<Step>, k: nat, user: nat)
    requires Sound(w) && NoneExchanging(w, user) && StartsNothing(w, steps, k, user)
    ensures NoneExchanging(After(w, steps), user) && IssuesNothing(w, steps, k, user)
  {
    hide Sound, Next, Enabled, NoneExchanging, Owns, Issues;
    if steps != [] {
      var n := |steps| - 1;
      forall m | 0 <= m < n
        ensures steps[..n][m] == steps[m] && steps[..n][..m] == steps[..m]
      {
      }
      NothingIsIssued(w, steps[..n], k, user);
      RunsAreSound(w, steps[..n]);
      var before := After(w, steps[..n]);
      if Enabled(before, steps[n]) {
        NoneExchangingStep(before, steps[n], user);
      } else {
        NotIssuedWhenDisabled(before, steps[n], user);
      }
      assert IssuesNothing(w, steps, k, user) by {
        forall m | 0 <= m < |steps| ensures !Issues(After(w, steps[..m]), steps[m], user) {
          if m < n { assert !Issues(After(w, steps[..n][..m]), steps[..n][m], user); }
        }
      }
    }
  }

  lemma NotIssuedWhenDisabled(w: World, step: Step, user: nat)
    requires step != Login(user) && !Enabled(w, step)
    ensures !Issues(w, step, user)
  {
  }

  /** Every other transaction gives up. */
  lemma {:induction false} AbortAll(w: World, s: set<nat>, k: nat, user: nat) returns (steps: seq<Step>)
    requires k in w.txs && s <= w.txs.Keys - {k}
    ensures StartsNothing(w, steps, k, user)
    ensures After(w, steps) == w.(txs := w.txs - s)
  {
    if s == {} {
      steps := [];
      assert w.txs - {} == w.txs;
    } else {
      var j :| j in s;
      var before := AbortAll(w, s - {j}, k, user);
      steps := before + [Abort(j)];
      Snoc(w, before, Abort(j));
      assert w.txs - (s - {j}) - {j} == w.txs - s;
      forall n | 0 <= n < |steps| && steps[n].Present?
        ensures !Owns(After(w, steps[..n]), user, steps[n].token)
      {
        assert steps[..n] == before[..n] && steps[n] == before[n];
      }
    }
  }

  lemma Prepended(w: World, step: Step, steps: seq<Step>)
    requires Enabled(w, step)
    ensures After(w, [step] + steps) == After(Next(w, step), steps)
  {
    hide Enabled, Next;
    if steps == [] {
      assert [step] + [] == [] + [step];
      assert [step][..0] == [];
    } else {
      var n := |steps| - 1;
      assert ([step] + steps)[..|steps|] == [step] + steps[..n];
      Prepended(w, step, steps[..n]);
    }
  }

  /** The run in which an exchange under way commits before the revocation does. */
  lemma ExchangeGetsAhead(w: World, k: nat, j: nat, user: nat) returns (steps: seq<Step>)
    requires Sound(w) && k in w.txs && w.txs[k] == Revoking(w.txs[k].token, |w.tokens|)
    requires Owns(w, user, w.txs[k].token) && Exchanges(w, user, j)
    ensures StartsNothing(w, steps, k, user) && Enabled(After(w, steps), Commit(k))
    ensures !NoneLive(After(w, steps + [Commit(k)]), user)
  {
    hide Sound, After, Waits;
    var v := Next(w, Commit(j));
    var rest := AbortAll(v, v.txs.Keys - {k}, k, user);
    steps := [Commit(j)] + rest;
    Prepended(w, Commit(j), rest);
    forall n | 0 <= n < |steps| && steps[n].Present?
      ensures !Owns(After(w, steps[..n]), user, steps[n].token)
    {
      assert steps[..n] == [Commit(j)] + rest[..n - 1] && steps[n] == rest[n - 1];
      Prepended(w, Commit(j), rest[..n - 1]);
    }
    var u := After(w, steps);
    Alone(u, k);
    Snoc(w, steps, Commit(k));
    assert u.tokens[|w.tokens|].user == user && !u.tokens[|w.tokens|].revoked;
    RunsAreSound(w, steps);
    RevokesWhatItSees(u, k);
    assert After(w, steps + [Commit(k)]).tokens[|w.tokens|] == u.tokens[|w.tokens|];
  }

  lemma Alone(w: World, k: nat)
    requires k in w.txs && w.txs.Keys == {k} && w.txs[k].Revoking? && w.txs[k].token < |w.tokens|
    ensures Enabled(w, Commit(k))
  {
    forall j | j in w.txs ensures j == k {
      assert j in w.txs.Keys;
    }
  }

  /** What can be asked when the replay is detected: if the user then only lets finish what is
      under way, does the revocation leave no live token, in whatever order things end? It does
      exactly when no exchange of that user holds a row lock. */
  lemma ReplayIsCompleteExactly(w: World, k: nat, user: nat)
    requires Sound(w) && k in w.txs && w.txs[k] == Revoking(w.txs[k].token, |w.tokens|)
    requires Owns(w, user, w.txs[k].token)
    ensures (forall steps | StartsNothing(w, steps, k, user) && Enabled(After(w, steps), Commit(k)) ::
               NoneLive(After(w, steps + [Commit(k)]), user))
            <==> NoneExchanging(w, user)
  {
    hide Sound, After, Enabled, NoneLive, StartsNothing, IssuesNothing, Owns, Exchanges;
    if NoneExchanging(w, user) {
      forall steps | StartsNothing(w, steps, k, user) && Enabled(After(w, steps), Commit(k))
        ensures NoneLive(After(w, steps + [Commit(k)]), user)
      {
        NothingIsIssued(w, steps, k, user);
        ReplayEndsEverySession(w, steps, k, user);
      }
    } else {
      var j :| j in w.txs && Exchanges(w, user, j);
      var steps := ExchangeGetsAhead(w, k, j, user);
      assert StartsNothing(w, steps, k, user) && Enabled(After(w, steps), Commit(k));
    }
  }

  /** A user without a live token has none until the next login. */
  lemma {:induction false} DeadUntilLogin(w: World, steps: seq<Step>, user: nat)
    requires Sound(w) && NoneLive(w, user)
    requires forall k | 0 <= k < |steps| :: steps[k] != Login(user)
    ensures NoneLive(After(w, steps), user)
  {
    hide Sound, Next, Enabled;
    if steps != [] {
      var n := |steps| - 1;
      DeadUntilLogin(w, steps[..n], user);
      RunsAreSound(w, steps[..n]);
      if Enabled(After(w, steps[..n]), steps[n]) { DeadStep(After(w, steps[..n]), steps[n], user); }
    }
  }

  lemma DeadStep(w: World, step: Step, user: nat)
    requires Sound(w) && Enabled(w, step) && NoneLive(w, user) && step != Login(user)
    ensures NoneLive(Next(w, step), user)
  {
  }

  /** From a point where the user has no live token, each live token is of a login since. */
  ghost predicate Since(w: World, user: nat, first: nat) {
    forall i | 0 <= i < |w.tokens| && w.tokens[i].user == user && !w.tokens[i].revoked :: w.tokens[i].session >= first
  }

  lemma {:induction false} LiveAreSince(w: World, steps: seq<Step>, user: nat)
    requires Sound(w) && NoneLive(w, user)
    ensures Since(After(w, steps), user, |w.logins|) && |w.logins| <= |After(w, steps).logins|
  {
    hide Sound, Next, Enabled;
    if steps != [] {
      var n := |steps| - 1;
      LiveAreSince(w, steps[..n], user);
      RunsAreSound(w, steps[..n]);
      if Enabled(After(w, steps[..n]), steps[n]) { SinceStep(After(w, steps[..n]), steps[n], user, |w.logins|); }
    }
  }

  lemma SinceStep(w: World, step: Step, user: nat, first: nat)
    requires Sound(w) && Enabled(w, step) && Since(w, user, first) && first <= |w.logins|
    ensures Since(Next(w, step), user, first) && first <= |Next(w, step).logins|
  {
  }

  function LiveOf(tokens: seq<Token>, user: nat): set<nat> {
    set i: nat | i < |tokens| && tokens[i].user == user && !tokens[i].revoked
  }

  function LoginsOf(logins: seq<nat>, user: nat, first: nat): set<nat> {
    set s: nat | s < |logins| && first <= s && logins[s] == user
  }

  lemma {:induction false} OneEach(tokens: seq<Token>, live: set<nat>, sessions: set<nat>)
    requires forall i | i in live :: i < |tokens| && tokens[i].session in sessions
    requires forall i, j | i in live && j in live && i != j :: tokens[i].session != tokens[j].session
    ensures |live| <= |sessions|
  {
    if live != {} {
      var i :| i in live;
      OneEach(tokens, live - {i}, sessions - {tokens[i].session});
    }
  }

  /** After a replay, a user's live tokens never exceed the user's logins since. */
  lemma LiveAtMostLogins(w: World, steps: seq<Step>, user: nat)
    requires Sound(w) && NoneLive(w, user)
    ensures |LiveOf(After(w, steps).tokens, user)| <= |LoginsOf(After(w, steps).logins, user, |w.logins|)|
  {
    RunsAreSound(w, steps);
    LiveAreSince(w, steps, user);
    var v := After(w, steps);
    forall i, j | i in LiveOf(v.tokens, user) && j in LiveOf(v.tokens, user) && i != j
      ensures v.tokens[i].session != v.tokens[j].session
    {
      assert if i < j then v.tokens[i].session != v.tokens[j].session else v.tokens[j].session != v.tokens[i].session;
    }
    OneEach(v.tokens, LiveOf(v.tokens, user), LoginsOf(v.logins, user, |w.logins|));
  }

  /** A rotation under way when the replayed token is presented escapes the replay. */
  const ESCAPE := [
    SetActive(0, true), Login(0), Login(0), Logout(0), Present(1, 1), Present(0, 0), Commit(1), Commit(0)]

  lemma Snoc(w: World, steps: seq<Step>, step: Step)
    ensures After(w, steps + [step])
            == var v := After(w, steps); if Enabled(v, step) then Next(v, step) else v
  {
    assert (steps + [step])[..|steps|] == steps;
  }

  lemma AtStart()
    ensures After(START, []) == START
  {
  }

  lemma BeforeTheReplay()
    ensures After(START, ESCAPE[..4]) ==
            World(0, [Token(0, LIFETIME, true, None, 0), Token(0, LIFETIME, false, None, 1)], [0, 0], {0}, map[])
  {
    hide After;
    var s := ESCAPE;
    AtStart();
    assert s[..0] == [];
    assert s[..1] == s[..0] + [s[0]] && s[..2] == s[..1] + [s[1]] && s[..3] == s[..2] + [s[2]];
    assert s[..4] == s[..3] + [s[3]];
    Snoc(START, s[..0], s[0]);
    Snoc(START, s[..1], s[1]);
    Snoc(START, s[..2], s[2]);
    Snoc(START, s[..3], s[3]);
  }

  lemma RotationEscapesReplay()
    ensures var w := After(START, ESCAPE[..7]);
            0 in w.txs && w.txs[0].Revoking? && Enabled(w, Commit(0)) && !NoneLive(After(START, ESCAPE), 0)
  {
    hide After;
    var s := ESCAPE;
    BeforeTheReplay();
    assert s[..5] == s[..4] + [s[4]] && s[..6] == s[..5] + [s[5]];
    assert s[..7] == s[..6] + [s[6]] && s == s[..7] + [s[7]];
    var a, b := Token(0, LIFETIME, true, None, 0), Token(0, LIFETIME, false, None, 1);
    Snoc(START, s[..4], s[4]);
    assert After(START, s[..5]) == World(0, [a, b], [0, 0], {0}, map[1 := Exchanging(1)]);
    Snoc(START, s[..5], s[5]);
    assert After(START, s[..6]) == World(0, [a, b], [0, 0], {0}, map[1 := Exchanging(1), 0 := Revoking(0, 2)]);
    Snoc(START, s[..6], s[6]);
    var w := After(START, s[..7]);
    assert w.txs == map[0 := Revoking(0, 2)] && |w.tokens| == 3 && w.tokens[2] == Token(0, LIFETIME, false, None, 1);
    Snoc(START, s[..7], s[7]);
    assert After(START, s).tokens[2] == w.tokens[2];
  }
}
