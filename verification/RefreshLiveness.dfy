/** How long a session can be used: exactly until it expires, is revoked or is rotated. */
module RefreshLiveness {
  import opened Prelude
  import opened RefreshSessions

  /** The steps that end this session: its revocation, alone or with its user's, and its rotation. */
  predicate Ends(w: World, a: Action, id: SessionId)
    requires id in w.sessions
  {
    match a
    case RevokeToken(session, reason) => session == id && reason != Rotated
    case RevokeAll(user, except, reason) => user == w.sessions[id].user && except != Some(id) && reason != Rotated
    case PunishReplay(request) => request in w.caught && w.caught[request] == w.sessions[id].user
    case FinishRotation(request, _) => request in w.flying && w.flying[request] == id
    case _ => false
  }

  /** None of the steps ends the session when it is taken. */
  predicate Untouched(w: World, more: seq<Action>, id: SessionId) {
    more == []
    || (Untouched(w, more[..|more| - 1], id)
        && id in Run(w, more[..|more| - 1]).sessions && !Ends(Run(w, more[..|more| - 1]), more[|more| - 1], id))
  }

  /** One step: an unrevoked session before its end is revoked exactly by a step that ends it, and keeps its row otherwise. */
  lemma StepExactly(w: World, a: Action, id: SessionId)
    requires Sound(w) && id in w.sessions && w.sessions[id].revokedAt.None? && w.clock < w.sessions[id].expiresAt
    ensures var w' := Step(w, a);
      && id in w'.sessions
      && (Ends(w, a, id) <==> w'.sessions[id].revokedAt.Some?)
      && (!Ends(w, a, id) ==> w'.sessions[id] == w.sessions[id])
  {
    assert SessionSound(w, id);
    if a.FinishRotation? {
      RotationStepExactly(w, a, id);
    } else if a.RevokeAll? || a.PunishReplay? {
      MassStepExactly(w, a, id);
    }
  }

  lemma RotationStepExactly(w: World, a: Action, id: SessionId)
    requires Sound(w) && id in w.sessions && w.sessions[id].revokedAt.None? && w.clock < w.sessions[id].expiresAt
    requires a.FinishRotation?
    ensures var w' := Step(w, a);
      && id in w'.sessions && (Ends(w, a, id) <==> w'.sessions[id].revokedAt.Some?)
      && (!Ends(w, a, id) ==> w'.sessions[id] == w.sessions[id])
  {
    assert SessionSound(w, id);
  }

  lemma MassStepExactly(w: World, a: Action, id: SessionId)
    requires id in w.sessions && w.sessions[id].revokedAt.None? && w.clock < w.sessions[id].expiresAt
    requires a.RevokeAll? || a.PunishReplay?
    ensures var w' := Step(w, a);
      && id in w'.sessions && (Ends(w, a, id) <==> w'.sessions[id].revokedAt.Some?)
      && (!Ends(w, a, id) ==> w'.sessions[id] == w.sessions[id])
  {
  }

  lemma ClockGrows(w: World, a: Action)
    ensures w.clock <= Step(w, a).clock
  {
  }

  /** A session that is not accepted never is again. */
  lemma StaysRefused(w: World, a: Action, id: SessionId)
    requires Sound(w) && id in w.sessions && !Accepts(w, id)
    ensures id in Step(w, a).sessions && !Accepts(Step(w, a), id)
    ensures Step(w, a).sessions[id].expiresAt == w.sessions[id].expiresAt
  {
    ClockGrows(w, a);
    StepSound(w, a);
  }

  /**
   From any moment on, a session is accepted exactly as long as it was unrevoked then, no step since has
   ended it, and its time has not come.
   */
  lemma {:induction false} AcceptedExactly(w: World, more: seq<Action>, id: SessionId)
    requires Sound(w) && id in w.sessions
    ensures var w' := Run(w, more);
      && Sound(w') && id in w'.sessions && w.clock <= w'.clock
      && (Accepts(w', id) <==>
            w.sessions[id].revokedAt.None? && Untouched(w, more, id) && w'.clock < w.sessions[id].expiresAt)
      && w'.sessions[id].expiresAt == w.sessions[id].expiresAt
  {
    if more != [] {
      var rest, a := more[..|more| - 1], more[|more| - 1];
      AcceptedExactly(w, rest, id);
      var mid := Run(w, rest);
      StepSound(mid, a);
      ClockGrows(mid, a);
      if Accepts(mid, id) {
        StepExactly(mid, a, id);
      } else {
        StaysRefused(mid, a, id);
      }
    }
  }

  /** A login's session is its user's, unrevoked, lives `ttl` from now, and can be used just so long. */
  lemma LoginUsable(before: seq<Action>, user: UserId, ttl: int, more: seq<Action>)
    ensures var w := Run(INITIAL, before);
      var id, w1 := w.nextId, Step(w, Login(user, ttl));
      var w' := Run(w1, more);
      && id !in w.sessions && id in w1.sessions && w1.sessions[id] == Session(user, w.clock + ttl, None, None, None)
      && (Accepts(w', id) <==> Untouched(w1, more, id) && w'.clock < w.clock + ttl)
  {
    var w := Run(INITIAL, before);
    RunSound(before);
    assert w.nextId in w.sessions ==> SessionSound(w, w.nextId);
    StepSound(w, Login(user, ttl));
    AcceptedExactly(Step(w, Login(user, ttl)), more, w.nextId);
  }

  /** The rows a rotation in flight leaves: spent and new, or nothing new. */
  lemma RotationRows(w: World, request: nat, ttl: int)
    requires Sound(w) && request in w.flying
    ensures var id, new_, w1 := w.flying[request], w.nextId, Step(w, FinishRotation(request, ttl));
      && id in w.sessions && new_ !in w.sessions
      && (!Accepts(w, id) ==> w1.sessions == w.sessions)
      && (Accepts(w, id) ==>
            && new_ in w1.sessions && w1.sessions[new_] == Session(w.sessions[id].user, w.clock + ttl, None, None, None)
            && new_ in w1.chains && id in w.chains && w1.chains[new_] == w.chains[id]
            && id in w1.sessions && w1.sessions[id].replacedBy == Some(new_) && !Accepts(w1, id) && w1.clock == w.clock)
  {
    assert SessionSound(w, w.flying[request]);
    assert w.nextId in w.sessions ==> SessionSound(w, w.nextId);
  }

  /**
   A rotation of a session still accepted spends it for a new one of the same user and chain, which
   lives `ttl` from that moment and can be used just so long; any other rotation in flight creates nothing.
   */
  lemma RotationUsable(before: seq<Action>, request: nat, ttl: int, more: seq<Action>)
    requires request in Run(INITIAL, before).flying
    ensures var w := Run(INITIAL, before);
      var id, new_, w1 := w.flying[request], w.nextId, Step(w, FinishRotation(request, ttl));
      var w' := Run(w1, more);
      && id in w.sessions && new_ !in w.sessions
      && (!Accepts(w, id) ==> w1.sessions == w.sessions)
      && (Accepts(w, id) ==>
            && new_ in w1.sessions && w1.sessions[new_] == Session(w.sessions[id].user, w.clock + ttl, None, None, None)
            && new_ in w1.chains && id in w.chains && w1.chains[new_] == w.chains[id]
            && id in w1.sessions && w1.sessions[id].replacedBy == Some(new_) && !Accepts(w', id)
            && (Accepts(w', new_) <==> Untouched(w1, more, new_) && w'.clock < w.clock + ttl))
  {
    var w := Run(INITIAL, before);
    RunSound(before);
    RotationRows(w, request, ttl);
    if Accepts(w, w.flying[request]) {
      StepSound(w, FinishRotation(request, ttl));
      AcceptedExactly(Step(w, FinishRotation(request, ttl)), more, w.nextId);
      SpentForGood(Step(w, FinishRotation(request, ttl)), more, w.flying[request]);
    }
  }

  lemma SpentForGood(w: World, more: seq<Action>, id: SessionId)
    requires Sound(w) && id in w.sessions && !Accepts(w, id)
    ensures !Accepts(Run(w, more), id)
  {
    AcceptedExactly(w, more, id);
  }

  /** A live session's rotation, undisturbed, succeeds. */
  lemma LiveRotates(w: World, request: nat, id: SessionId, ttl: int)
    requires Sound(w) && Accepts(w, id)
    ensures var w2 := Step(Step(w, BeginRotation(request, id)), FinishRotation(request, ttl));
      && w2.nextId == w.nextId + 1 && w.nextId in w2.sessions
      && w2.sessions[w.nextId] == Session(w.sessions[id].user, w.clock + ttl, None, None, None)
      && (0 < ttl ==> Accepts(w2, w.nextId))
  {
    assert SessionSound(w, id);
  }

  /** A revocation ends its session at once and for good, and a mass revocation every live one but the excepted. */
  lemma RevokedForGood(w: World, a: Action, id: SessionId, more: seq<Action>)
    requires Sound(w) && id in w.sessions && Ends(w, a, id)
    ensures !Accepts(Run(Step(w, a), more), id)
  {
    assert SessionSound(w, id);
    StepSound(w, a);
    ClockGrows(w, a);
    if Accepts(w, id) { StepExactly(w, a, id); } else { StaysRefused(w, a, id); }
    AcceptedExactly(Step(w, a), more, id);
  }
}
