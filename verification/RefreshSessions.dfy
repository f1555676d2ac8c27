/**
 Refresh-token sessions: login, rotation, revocation and replay detection. A token's hash is a fresh
 injective identifier, so a session and its token are one identifier here. A rotation reads its session
 in one step and rotates in a later one; requests of all kinds run in between.
 */
module RefreshSessions {
  import opened Prelude

  type SessionId = nat
  type UserId = string

  datatype Reason = Rotated | ReuseDetected | TimedOut | SessionRevoked | Logout | LogoutAll | LogoutOthers | OtherReason(text: string)

  datatype Session = Session(
    user: UserId, expiresAt: int, revokedAt: Option<int>, reason: Option<Reason>, replacedBy: Option<SessionId>)

  type Sessions = map<SessionId, Session>

  /** A row the guard `revokedAt: null, expiresAt > now` selects. */
  predicate IsLive(s: Session, now: int) {
    s.revokedAt.None? && s.expiresAt > now
  }

  function Revoke(s: Session, reason: Reason, now: int): Session {
    s.(revokedAt := Some(now), reason := Some(reason))
  }

  predicate Selected(s: Session, id: SessionId, user: UserId, except: Option<SessionId>, now: int) {
    s.user == user && Some(id) != except && IsLive(s, now)
  }

  function RevokeRow(s: Session, id: SessionId, user: UserId, except: Option<SessionId>, reason: Reason, now: int): Session {
    if Selected(s, id, user, except, now) then Revoke(s, reason, now) else s
  }

  function SelectedIds(ss: Sessions, user: UserId, except: Option<SessionId>, now: int): set<SessionId> {
    set id | id in ss && Selected(ss[id], id, user, except, now)
  }

  /** The three `updateMany` calls over a user's live sessions, all or all but one. */
  function RevokeLive(ss: Sessions, user: UserId, except: Option<SessionId>, reason: Reason, now: int): Sessions {
    map id | id in ss :: RevokeRow(ss[id], id, user, except, reason, now)
  }

  /** `revokedAt: null` alone guards the single-session revocations. */
  function RevokeOne(ss: Sessions, id: SessionId, reason: Reason, now: int): Sessions {
    if id in ss && ss[id].revokedAt.None? then ss[id := Revoke(ss[id], reason, now)] else ss
  }

  function Create(ss: Sessions, id: SessionId, user: UserId, expiresAt: int): Sessions {
    ss[id := Session(user, expiresAt, None, None, None)]
  }

  /** The rotation transaction: compare and set, then create, then record the replacement. */
  function RotateTx(ss: Sessions, old_: SessionId, new_: SessionId, now: int, ttl: int): Option<Sessions>
    requires old_ in ss
  {
    if !IsLive(ss[old_], now) then None
    else
      Some(Create(ss, new_, ss[old_].user, now + ttl)[old_ := Revoke(ss[old_], Rotated, now).(replacedBy := Some(new_))])
  }

  // ---------------------------------------------------------------------------------------------
  // The service, on its table
  // ---------------------------------------------------------------------------------------------

  datatype Answer = Accepted(id: SessionId) | Invalid | WasRevoked | HasExpired | UserInactive | NoLongerValid

  class RefreshTokenService {
    var sessions: Sessions
    var nextId: SessionId

    constructor ()
      ensures sessions == map[] && nextId == 0
    {
      sessions, nextId := map[], 0;
    }

    method CreateSession(user: UserId, now: int, ttl: int) returns (id: SessionId)
      modifies this
      ensures id == old(nextId) && nextId == id + 1
      ensures sessions == Create(old(sessions), id, user, now + ttl)
    {
      id := nextId;
      nextId := nextId + 1;
      sessions := sessions[id := Session(user, now + ttl, None, None, None)];
    }

    method RevokeActiveSessions(user: UserId, except: Option<SessionId>, reason: Reason, now: int) returns (count: nat)
      modifies this`sessions
      ensures sessions == RevokeLive(old(sessions), user, except, reason, now)
      ensures count == |SelectedIds(old(sessions), user, except, now)|
      ensures sessions.Keys == old(sessions).Keys
      ensures forall id | id in sessions ::
        var s := old(sessions)[id];
        sessions[id] ==
          if s.user == user && except != Some(id) && s.revokedAt.None? && now < s.expiresAt
          then s.(revokedAt := Some(now), reason := Some(reason)) else s
    {
      var selected := SelectedIds(sessions, user, except, now);
      count := |selected|;
      var rest, rows := selected, sessions;
      while rest != {}
        invariant rest <= selected && rows.Keys == sessions.Keys
        invariant forall id | id in rows && id !in selected - rest :: rows[id] == sessions[id]
        invariant forall id | id in selected - rest :: rows[id] == Revoke(sessions[id], reason, now)
        decreases rest
      {
        var id :| id in rest;
        rows := rows[id := rows[id].(revokedAt := Some(now), reason := Some(reason))];
        rest := rest - {id};
      }
      assert forall id | id in sessions :: id in selected <==> Selected(sessions[id], id, user, except, now);
      assert rows == RevokeLive(sessions, user, except, reason, now);
      sessions := rows;
    }

    method GetActiveSession(id: SessionId, userActive: bool, now: int) returns (answer: Answer)
      modifies this`sessions
      ensures answer ==
        if id in old(sessions) && old(sessions)[id].revokedAt.None? && now < old(sessions)[id].expiresAt && userActive
        then Accepted(id) else Invalid
      ensures sessions ==
        if id in old(sessions) && old(sessions)[id].revokedAt.Some? && old(sessions)[id].reason == Some(Rotated)
        then RevokeLive(old(sessions), old(sessions)[id].user, None, ReuseDetected, now) else old(sessions)
    {
      if id !in sessions { return Invalid; }
      var session := sessions[id];
      if session.revokedAt.Some? && session.reason == Some(Rotated) {
        var _ := RevokeActiveSessions(session.user, None, ReuseDetected, now);
      }
      if session.revokedAt.Some? || session.expiresAt <= now || !userActive { return Invalid; }
      return Accepted(id);
    }

    method RotateRefreshToken(id: SessionId, userActive: bool, now: int, ttl: int) returns (answer: Answer)
      requires forall s | s in sessions :: s < nextId
      modifies this
      ensures id !in old(sessions) ==> answer == Invalid && sessions == old(sessions)
      ensures id in old(sessions) && old(sessions)[id].revokedAt.Some? ==>
        answer == WasRevoked && sessions == RevokeLive(old(sessions), old(sessions)[id].user, None, ReuseDetected, now)
      ensures id in old(sessions) && old(sessions)[id].revokedAt.None? && old(sessions)[id].expiresAt <= now ==>
        answer == HasExpired && sessions == RevokeOne(old(sessions), id, TimedOut, now)
      ensures id in old(sessions) && IsLive(old(sessions)[id], now) && !userActive ==>
        answer == UserInactive && sessions == old(sessions)
      ensures id in old(sessions) && IsLive(old(sessions)[id], now) && userActive ==>
        answer == Accepted(old(nextId)) && Some(sessions) == RotateTx(old(sessions), id, old(nextId), now, ttl)
      ensures id in old(sessions) && old(sessions)[id].revokedAt.None? && now < old(sessions)[id].expiresAt && userActive ==>
        var new_, s := old(nextId), old(sessions)[id];
        && answer == Accepted(new_) && nextId == new_ + 1
        && sessions == old(sessions)[new_ := Session(s.user, now + ttl, None, None, None)][
             id := s.(revokedAt := Some(now), reason := Some(Rotated), replacedBy := Some(new_))]
    {
      if id !in sessions { return Invalid; }
      var existing := sessions[id];
      if existing.revokedAt.Some? {
        var _ := RevokeActiveSessions(existing.user, None, ReuseDetected, now);
        return WasRevoked;
      }
      if existing.expiresAt <= now {
        sessions := sessions[id := existing.(revokedAt := Some(now), reason := Some(TimedOut))];
        return HasExpired;
      }
      if !userActive { return UserInactive; }
      sessions := sessions[id := existing.(revokedAt := Some(now), reason := Some(Rotated))];
      var new_ := CreateSession(existing.user, now, ttl);
      sessions := sessions[id := sessions[id].(replacedBy := Some(new_))];
      assert sessions == RotateTx(old(sessions), id, new_, now, ttl).value;
      return Accepted(new_);
    }

    method RevokeByToken(id: SessionId, reason: Reason, now: int)
      modifies this`sessions
      ensures sessions == RevokeOne(old(sessions), id, reason, now)
      ensures sessions ==
        if id in old(sessions) && old(sessions)[id].revokedAt.None?
        then old(sessions)[id := old(sessions)[id].(revokedAt := Some(now), reason := Some(reason))] else old(sessions)
    {
      if id in sessions && sessions[id].revokedAt.None? {
        sessions := sessions[id := sessions[id].(revokedAt := Some(now), reason := Some(reason))];
      }
    }

    method RevokeUserSession(user: UserId, id: SessionId, now: int) returns (found: bool)
      modifies this`sessions
      ensures found <==> id in old(sessions) && old(sessions)[id].user == user
      ensures sessions == if found then RevokeOne(old(sessions), id, SessionRevoked, now) else old(sessions)
    {
      found := id in sessions && sessions[id].user == user;
      if found { RevokeByToken(id, SessionRevoked, now); }
    }
  }

  // ---------------------------------------------------------------------------------------------
  // Requests interleaved
  // ---------------------------------------------------------------------------------------------

  /**
   `chains` records, for each session, the login its chain began with; `flying` holds rotations that have
   read their session and passed the checks; `caught` holds presentations of a revoked token whose
   mass revocation is still to come. `clock` never goes back.
   */
  datatype Chain = Chain(login: SessionId, user: UserId)

  datatype World = World(
    sessions: Sessions, chains: map<SessionId, Chain>, nextId: SessionId, clock: int,
    flying: map<nat, SessionId>, caught: map<nat, UserId>)

  const INITIAL := World(map[], map[], 0, 0, map[], map[])

  datatype Action =
    | Tick(now: int)
    | Login(user: UserId, ttl: int)
    | Present(request: nat, session: SessionId)
    | PunishReplay(request: nat)
    | BeginRotation(request: nat, session: SessionId)
    | FinishRotation(request: nat, ttl: int)
    | RevokeToken(session: SessionId, reason: Reason)
    | RevokeAll(user: UserId, except: Option<SessionId>, reason: Reason)

  /** Callers' reasons; only the rotation itself writes ROTATED. */
  predicate IsCallerReason(reason: Reason) {
    reason != Rotated
  }

  function Step(w: World, a: Action): World {
    match a
    case Tick(now) => if now >= w.clock then w.(clock := now) else w
    case Login(user, ttl) =>
      w.(sessions := Create(w.sessions, w.nextId, user, w.clock + ttl), chains := w.chains[w.nextId := Chain(w.nextId, user)],
         nextId := w.nextId + 1)
    case Present(request, id) =>   // the read of `getActiveSession`
      if id in w.sessions && w.sessions[id].revokedAt.Some? && w.sessions[id].reason == Some(Rotated)
      then w.(caught := w.caught[request := w.sessions[id].user]) else w
    case PunishReplay(request) =>
      if request !in w.caught then w
      else w.(sessions := RevokeLive(w.sessions, w.caught[request], None, ReuseDetected, w.clock), caught := w.caught - {request})
    case BeginRotation(request, id) =>   // the read of `rotateRefreshToken`
      if id !in w.sessions then w
      else if w.sessions[id].revokedAt.Some? then w.(caught := w.caught[request := w.sessions[id].user])
      else if w.sessions[id].expiresAt <= w.clock then w.(sessions := RevokeOne(w.sessions, id, TimedOut, w.clock))
      else w.(flying := w.flying[request := id])
    case FinishRotation(request, ttl) =>
      if request !in w.flying || w.flying[request] !in w.sessions || w.flying[request] !in w.chains then w
      else
        var id := w.flying[request];
        var rotated := RotateTx(w.sessions, id, w.nextId, w.clock, ttl);
        if rotated.None? then w.(flying := w.flying - {request})
        else
          w.(sessions := rotated.value, chains := w.chains[w.nextId := w.chains[id]], nextId := w.nextId + 1,
             flying := w.flying - {request})
    case RevokeToken(id, reason) =>
      if IsCallerReason(reason) then w.(sessions := RevokeOne(w.sessions, id, reason, w.clock)) else w
    case RevokeAll(user, except, reason) =>
      if IsCallerReason(reason) then w.(sessions := RevokeLive(w.sessions, user, except, reason, w.clock)) else w
  }

  function Run(w: World, actions: seq<Action>): World {
    if actions == [] then w else Step(Run(w, actions[..|actions| - 1]), actions[|actions| - 1])
  }

  /** Is a token accepted now: by the precheck, or by the rotation that spends it? */
  predicate Accepts(w: World, id: SessionId) {
    id in w.sessions && IsLive(w.sessions[id], w.clock)
  }

  // ---------------------------------------------------------------------------------------------
  // Chains
  // ---------------------------------------------------------------------------------------------

  ghost predicate SessionSound(w: World, id: SessionId) {
    && id in w.sessions && id in w.chains && id < w.nextId && w.chains[id].login <= id
    && w.sessions[id].user == w.chains[id].user
    && (w.sessions[id].revokedAt.Some? <==> w.sessions[id].reason.Some?)
    && (w.sessions[id].reason == Some(Rotated) <==> w.sessions[id].replacedBy.Some?)
  }

  /** A replacement is younger, of the same chain, and replaces nobody else. */
  ghost predicate LinkSound(w: World, id: SessionId, next: SessionId) {
    && id < next && next in w.sessions && next in w.chains && id in w.chains && w.chains[next] == w.chains[id]
  }

  ghost predicate Replaces(w: World, id: SessionId, next: SessionId) {
    id in w.sessions && w.sessions[id].replacedBy == Some(next)
  }

  /** The chain's open end: nothing replaces it. */
  ghost predicate IsTip(w: World, id: SessionId) {
    id in w.sessions && w.sessions[id].replacedBy.None?
  }

  ghost predicate Sound(w: World) {
    && w.sessions.Keys == w.chains.Keys
    && (forall id | id in w.sessions :: SessionSound(w, id))
    && (forall id, next | Replaces(w, id, next) :: LinkSound(w, id, next))
    && (forall i, j, next | Replaces(w, i, next) && Replaces(w, j, next) :: i == j)
    && (forall i, j | IsTip(w, i) && IsTip(w, j) && w.chains[i] == w.chains[j] :: i == j)
    && (forall r | r in w.flying :: w.flying[r] in w.sessions)
  }

  /** Revocation is permanent: time, reason and replacement stay as first written. */
  ghost predicate RevocationsKept(w: World, w': World) {
    forall id | id in w.sessions ::
      && id in w'.sessions && w'.sessions[id].user == w.sessions[id].user
      && w'.sessions[id].expiresAt == w.sessions[id].expiresAt
      && (w.sessions[id].revokedAt.Some? ==> w'.sessions[id] == w.sessions[id])
  }

  ghost predicate RowKept(s: Session, s': Session) {
    s' == s || (s.revokedAt.None? && s'.revokedAt.Some? && s'.reason.Some? && s'.reason != Some(Rotated)
                && s' == s.(revokedAt := s'.revokedAt, reason := s'.reason))
  }

  /** Nothing but revocations, none of them by rotation. */
  ghost predicate OnlyRevokes(w: World, w': World) {
    && w'.chains == w.chains && w'.nextId == w.nextId && w'.sessions.Keys == w.sessions.Keys
    && (forall id | id in w.sessions :: RowKept(w.sessions[id], w'.sessions[id]))
    && (forall r | r in w'.flying :: w'.flying[r] in w.sessions)
  }

  lemma OnlyRevokesSound(w: World, w': World)
    requires Sound(w) && OnlyRevokes(w, w')
    ensures Sound(w') && RevocationsKept(w, w')
  {
    forall id | id in w.sessions
      ensures SessionSound(w', id) && w'.sessions[id].replacedBy == w.sessions[id].replacedBy
    {
      assert SessionSound(w, id) && RowKept(w.sessions[id], w'.sessions[id]);
    }
    forall id, next | Replaces(w', id, next) ensures LinkSound(w', id, next) { assert Replaces(w, id, next); }
    forall i, j, next | Replaces(w', i, next) && Replaces(w', j, next) ensures i == j {
      assert Replaces(w, i, next) && Replaces(w, j, next);
    }
    forall i, j | IsTip(w', i) && IsTip(w', j) && w'.chains[i] == w'.chains[j] ensures i == j {
      assert IsTip(w, i) && IsTip(w, j);
    }
  }

  lemma LoginSessions(w: World, a: Action)
    requires Sound(w) && a.Login?
    ensures var w' := Step(w, a); forall id | id in w'.sessions :: SessionSound(w', id)
    ensures w.nextId !in w.sessions && RevocationsKept(w, Step(w, a))
  {
    var w' := Step(w, a);
    assert w.nextId !in w.sessions || SessionSound(w, w.nextId);
    forall id | id in w'.sessions ensures SessionSound(w', id) {
      if id != w.nextId { assert SessionSound(w, id); }
    }
  }

  lemma LoginSound(w: World, a: Action)
    requires Sound(w) && a.Login?
    ensures Sound(Step(w, a)) && RevocationsKept(w, Step(w, a))
  {
    var w' := Step(w, a);
    LoginSessions(w, a);
    forall id, next | Replaces(w', id, next) ensures Replaces(w, id, next) && LinkSound(w', id, next) {
      assert Replaces(w, id, next) && LinkSound(w, id, next);
    }
    forall i, j | IsTip(w', i) && IsTip(w', j) && w'.chains[i] == w'.chains[j] ensures i == j {
      if i != w.nextId { assert SessionSound(w, i) && IsTip(w, i); }
      if j != w.nextId { assert SessionSound(w, j) && IsTip(w, j); }
    }
  }

  /** What a successful rotation does to the tables. */
  ghost predicate RotatesTo(w: World, w': World, id: SessionId) {
    && id in w.sessions && id in w.chains && w.nextId !in w.sessions && id < w.nextId
    && w.sessions[id].revokedAt.None? && IsTip(w, id)
    && id in w'.sessions && w.nextId in w'.sessions
    && w'.sessions[id].user == w.sessions[id].user && w'.sessions[id].expiresAt == w.sessions[id].expiresAt
    && w'.sessions[id].revokedAt.Some?
    && w'.sessions[id].reason == Some(Rotated) && w'.sessions[id].replacedBy == Some(w.nextId)
    && w'.sessions[w.nextId].user == w.sessions[id].user && w'.sessions[w.nextId].revokedAt == None
    && w'.sessions[w.nextId].reason == None && w'.sessions[w.nextId].replacedBy == None
    && w'.sessions == w.sessions[w.nextId := w'.sessions[w.nextId]][id := w'.sessions[id]]
    && w'.chains == w.chains[w.nextId := w.chains[id]] && w'.nextId == w.nextId + 1
    && (forall r | r in w'.flying :: w'.flying[r] in w.sessions)
  }

  lemma RotationSessions(w: World, w': World, id: SessionId)
    requires Sound(w) && RotatesTo(w, w', id)
    ensures forall s | s in w'.sessions :: SessionSound(w', s)
    ensures RevocationsKept(w, w')
  {
    forall s | s in w'.sessions ensures SessionSound(w', s) {
      assert SessionSound(w, id);
      if s != w.nextId { assert SessionSound(w, s); }
    }
  }

  lemma RotationLinks(w: World, w': World, id: SessionId)
    requires Sound(w) && RotatesTo(w, w', id)
    ensures forall s, next | Replaces(w', s, next) :: LinkSound(w', s, next)
    ensures forall i, j, next | Replaces(w', i, next) && Replaces(w', j, next) :: i == j
  {
    forall s, next | Replaces(w', s, next)
      ensures LinkSound(w', s, next) && (s != id ==> Replaces(w, s, next) && next != w.nextId)
    {
      if s != id {
        assert Replaces(w, s, next);
        assert LinkSound(w, s, next);
      }
    }
  }

  lemma RotationTips(w: World, w': World, id: SessionId)
    requires Sound(w) && RotatesTo(w, w', id)
    ensures forall i, j | IsTip(w', i) && IsTip(w', j) && w'.chains[i] == w'.chains[j] :: i == j
  {
    forall i, j | IsTip(w', i) && IsTip(w', j) && w'.chains[i] == w'.chains[j] ensures i == j {
      if i != w.nextId { assert IsTip(w, i); }
      if j != w.nextId { assert IsTip(w, j); }
    }
  }

  lemma RotationStep(w: World, a: Action)
    requires Sound(w) && a.FinishRotation?
    ensures OnlyRevokes(w, Step(w, a)) || (a.request in w.flying && RotatesTo(w, Step(w, a), w.flying[a.request]))
  {
    if Step(w, a).nextId != w.nextId {
      var id := w.flying[a.request];
      assert SessionSound(w, id);
      assert w.nextId !in w.sessions || SessionSound(w, w.nextId);
    }
  }

  lemma RotationSound(w: World, a: Action)
    requires Sound(w) && a.FinishRotation?
    ensures Sound(Step(w, a)) && RevocationsKept(w, Step(w, a))
  {
    var w' := Step(w, a);
    RotationStep(w, a);
    if OnlyRevokes(w, w') {
      OnlyRevokesSound(w, w');
    } else {
      var id := w.flying[a.request];
      RotationSessions(w, w', id);
      RotationLinks(w, w', id);
      RotationTips(w, w', id);
    }
  }

  lemma LiveRevoked(w: World, user: UserId, except: Option<SessionId>, reason: Reason)
    requires Sound(w) && reason != Rotated
    ensures OnlyRevokes(w, w.(sessions := RevokeLive(w.sessions, user, except, reason, w.clock)))
  {
  }

  lemma OneRevoked(w: World, id: SessionId, reason: Reason)
    requires Sound(w) && reason != Rotated
    ensures OnlyRevokes(w, w.(sessions := RevokeOne(w.sessions, id, reason, w.clock)))
  {
  }

  lemma BeginRevokes(w: World, a: Action)
    requires Sound(w) && a.BeginRotation?
    ensures OnlyRevokes(w, Step(w, a))
  {
    OneRevoked(w, a.session, TimedOut);
  }

  lemma OthersRevoke(w: World, a: Action)
    requires Sound(w) && !a.Login? && !a.FinishRotation?
    ensures OnlyRevokes(w, Step(w, a))
  {
    match a
    case PunishReplay(request) => if request in w.caught { LiveRevoked(w, w.caught[request], None, ReuseDetected); }
    case BeginRotation(_, _) => BeginRevokes(w, a);
    case RevokeToken(id, reason) => if reason != Rotated { OneRevoked(w, id, reason); }
    case RevokeAll(user, except, reason) => if reason != Rotated { LiveRevoked(w, user, except, reason); }
    case _ =>
  }

  lemma StepSound(w: World, a: Action)
    requires Sound(w)
    ensures Sound(Step(w, a)) && RevocationsKept(w, Step(w, a))
  {
    match a
    case Login(_, _) => LoginSound(w, a);
    case FinishRotation(_, _) => RotationSound(w, a);
    case _ =>
      OthersRevoke(w, a);
      OnlyRevokesSound(w, Step(w, a));
  }

  lemma {:induction false} RunSound(actions: seq<Action>)
    ensures Sound(Run(INITIAL, actions))
  {
    if actions != [] {
      RunSound(actions[..|actions| - 1]);
      StepSound(Run(INITIAL, actions[..|actions| - 1]), actions[|actions| - 1]);
    }
  }

  /** Whatever follows, a revoked session keeps its time, first reason and replacement. */
  lemma {:induction false} RevocationPermanent(actions: seq<Action>, more: seq<Action>)
    ensures RevocationsKept(Run(INITIAL, actions), Run(Run(INITIAL, actions), more))
    ensures Sound(Run(Run(INITIAL, actions), more))
  {
    RunSound(actions);
    if more != [] {
      RevocationPermanent(actions, more[..|more| - 1]);
      StepSound(Run(Run(INITIAL, actions), more[..|more| - 1]), more[|more| - 1]);
    }
  }

  /** ROTATED means replaced, and a replacement is younger, of the same user and chain, and replaces nobody else. */
  lemma Replacements(actions: seq<Action>, i: SessionId, j: SessionId)
    ensures var w := Run(INITIAL, actions);
      && (i in w.sessions ==> (w.sessions[i].reason == Some(Rotated) <==> w.sessions[i].replacedBy.Some?))
      && (i in w.sessions && w.sessions[i].replacedBy.Some? ==>
            && i < w.sessions[i].replacedBy.value && w.sessions[i].replacedBy.value in w.sessions
            && w.sessions[w.sessions[i].replacedBy.value].user == w.sessions[i].user
            && (j in w.sessions && w.sessions[j].replacedBy == w.sessions[i].replacedBy ==> i == j))
  {
    RunSound(actions);
    var w := Run(INITIAL, actions);
    if i in w.sessions {
      assert SessionSound(w, i);
      if w.sessions[i].replacedBy.Some? {
        var next := w.sessions[i].replacedBy.value;
        assert Replaces(w, i, next) && LinkSound(w, i, next) && SessionSound(w, next);
        assert j in w.sessions && w.sessions[j].replacedBy == Some(next) ==> Replaces(w, j, next);
      }
    }
  }

  /** Each login chain has at most one unrevoked session. */
  lemma OneUnrevoked(actions: seq<Action>, i: SessionId, j: SessionId)
    ensures var w := Run(INITIAL, actions);
      i in w.sessions && j in w.sessions && i in w.chains && j in w.chains && w.chains[i] == w.chains[j] ==>
        w.sessions[i].revokedAt.Some? || w.sessions[j].revokedAt.Some? || i == j
  {
    RunSound(actions);
    var w := Run(INITIAL, actions);
    if i in w.sessions && j in w.sessions {
      assert SessionSound(w, i) && SessionSound(w, j);
      assert w.sessions[i].revokedAt.None? ==> IsTip(w, i);
      assert w.sessions[j].revokedAt.None? ==> IsTip(w, j);
    }
  }

  // ---------------------------------------------------------------------------------------------
  // Replay
  // ---------------------------------------------------------------------------------------------

  /** The chain has begun and none of its tokens is accepted. */
  ghost predicate Dead(w: World, chain: Chain) {
    && chain.login < w.nextId
    && (forall id | id in w.sessions && id in w.chains && w.chains[id] == chain :: !Accepts(w, id))
  }

  ghost predicate OldOrDead(w: World, w': World, chain: Chain) {
    forall id | id in w'.sessions && id in w'.chains && w'.chains[id] == chain ::
      id in w.sessions && id in w.chains && w.chains[id] == chain && (Accepts(w', id) ==> Accepts(w, id))
  }

  lemma DeadByRows(w: World, w': World, chain: Chain)
    requires Dead(w, chain) && OldOrDead(w, w', chain) && w.nextId <= w'.nextId
    ensures Dead(w', chain)
  {
  }

  lemma RotationDead(w: World, a: Action, chain: Chain)
    requires Sound(w) && Dead(w, chain) && a.FinishRotation?
    ensures Dead(Step(w, a), chain)
  {
    if Step(w, a).nextId != w.nextId {
      var id := w.flying[a.request];
      assert SessionSound(w, id);
      assert Accepts(w, id) && w.chains[id] != chain;
    }
  }

  lemma RevokesDead(w: World, w': World, chain: Chain)
    requires Dead(w, chain) && OnlyRevokes(w, w') && w.clock <= w'.clock
    ensures Dead(w', chain)
  {
    forall id | id in w'.sessions && id in w'.chains && w'.chains[id] == chain
      ensures id in w.sessions && (Accepts(w', id) ==> Accepts(w, id))
    {
      assert RowKept(w.sessions[id], w'.sessions[id]);
    }
    DeadByRows(w, w', chain);
  }

  lemma DeadStays(w: World, a: Action, chain: Chain)
    requires Sound(w) && Dead(w, chain)
    ensures Dead(Step(w, a), chain)
  {
    match a
    case FinishRotation(_, _) => RotationDead(w, a, chain);
    case Login(_, _) => DeadByRows(w, Step(w, a), chain);
    case _ =>
      OthersRevoke(w, a);
      RevokesDead(w, Step(w, a), chain);
  }

  lemma {:induction false} DeadForever(w: World, more: seq<Action>, chain: Chain)
    requires Sound(w) && Dead(w, chain)
    ensures Sound(Run(w, more)) && Dead(Run(w, more), chain)
  {
    if more != [] {
      DeadForever(w, more[..|more| - 1], chain);
      StepSound(Run(w, more[..|more| - 1]), more[|more| - 1]);
      DeadStays(Run(w, more[..|more| - 1]), more[|more| - 1], chain);
    }
  }

  lemma PunishKills(w: World, request: nat, chain: Chain)
    requires Sound(w) && request in w.caught && chain.user == w.caught[request] && chain.login < w.nextId
    ensures Dead(Step(w, PunishReplay(request)), chain)
  {
    var w' := Step(w, PunishReplay(request));
    forall id | id in w'.sessions && id in w'.chains && w'.chains[id] == chain ensures !Accepts(w', id) {
      assert SessionSound(w, id);
    }
  }

  /** Presenting a ROTATED token, to the precheck or to a rotation, puts its user up for mass revocation. */
  lemma PresentationCaught(w: World, token: SessionId, request: nat)
    requires Sound(w) && token in w.sessions && w.sessions[token].reason == Some(Rotated)
    ensures Step(w, Present(request, token)) == w.(caught := w.caught[request := w.sessions[token].user])
    ensures Step(w, BeginRotation(request, token)) == w.(caught := w.caught[request := w.sessions[token].user])
  {
    assert SessionSound(w, token);
  }

  /**
   Replay ends the chain: `w` is any reachable moment at which a presentation of `token`'s user has been
   caught; once the mass revocation that follows is done, no token of the login chain of `token` is
   accepted ever after, rotations already in flight included.
   */
  lemma ReplayEndsChain(before: seq<Action>, token: SessionId, request: nat, after: seq<Action>, id: SessionId)
    requires var w := Run(INITIAL, before);
      && token in w.sessions && request in w.caught && w.caught[request] == w.sessions[token].user
    ensures var w := Run(INITIAL, before);
      var final := Run(Step(w, PunishReplay(request)), after);
      && token in w.chains
      && (id in final.chains && final.chains[id] == w.chains[token] ==> !Accepts(final, id))
  {
    var w := Run(INITIAL, before);
    RunSound(before);
    assert SessionSound(w, token);
    PunishKills(w, request, w.chains[token]);
    StepSound(w, PunishReplay(request));
    DeadForever(Step(w, PunishReplay(request)), after, w.chains[token]);
  }
}
