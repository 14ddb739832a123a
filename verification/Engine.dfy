/**
  The playback protocol: any number of requests to play, each of which may start a
  player thread, over one shared record guarded by one lock. A step is a lock region,
  a thread creation, or one unlocked access by a player; steps interleave freely.
 */
module Engine {
  import opened Bytes
  import opened Strings

  /** mlib_play_media and mlib_play; libraries and playlists are addresses. */
  datatype Request =
    | Media(lib: nat, entry: CString)
    | List(lib: nat, plist: nat)

  /** Where a request, and then the player thread it created, has got to. */
  datatype Stage =
    | Calling
    | Spawning
    | Playing(lib: Option<nat>, elem: Option<nat>, seen: Option<CString>, plist: Option<nat>)
    | Refused
    | NoThread
    | Done

  datatype Session = Session(request: Request, stage: Stage)

  /** A copy made by strdup, and how often it was freed. */
  datatype Copy = Copy(text: CString, frees: nat)

  /**
    The shared record, the heap of copies, and a history: the sessions that were let in
    and those that finished, in order, whether freed memory was touched, and whether the
    only pointer to a live copy was overwritten.
   */
  datatype State = State(
    lib: nat, elem: Option<nat>, plist: nat, inUse: bool,
    copies: seq<Copy>, sessions: seq<Session>,
    accepted: seq<nat>, finished: seq<nat>, fault: bool, leaked: bool)

  datatype Action =
    | Call(request: Request)
    | Enter(i: nat)
    | Spawn(i: nat, created: bool)
    | ReadLib(i: nat)
    | ReadElem(i: nat)
    | ReadPlist(i: nat)
    | UseElem(i: nat)
    | Finish(i: nat)

  const INITIAL: State := State(0, None, 0, false, [], [], [], [], false, false)

  predicate Enabled(s: State, a: Action) {
    match a
    case Call(_) => true
    case Enter(i) => i < |s.sessions| && s.sessions[i].stage.Calling?
    case Spawn(i, _) => i < |s.sessions| && s.sessions[i].stage.Spawning?
    case ReadLib(i) => Player(s, i) && s.sessions[i].request.Media?
    case ReadElem(i) => Player(s, i) && s.sessions[i].request.Media?
    case ReadPlist(i) => Player(s, i) && s.sessions[i].request.List?
    case UseElem(i) => Player(s, i) && s.sessions[i].stage.lib.Some? && s.sessions[i].stage.elem.Some?
    case Finish(i) => Player(s, i) && HasRead(s.sessions[i])
  }

  predicate Player(s: State, i: nat) {
    i < |s.sessions| && s.sessions[i].stage.Playing?
  }

  /** The arguments of the player have been read. */
  predicate HasRead(p: Session)
    requires p.stage.Playing?
  {
    match p.request
    case Media(_, _) => p.stage.lib.Some? && p.stage.elem.Some?
    case List(_, _) => p.stage.plist.Some?
  }

  function SetStage(s: State, i: nat, stage: Stage): State
    requires i < |s.sessions|
  {
    s.(sessions := s.sessions[i := s.sessions[i].(stage := stage)])
  }

  /** The pointer leads to a copy that has not been freed. */
  predicate Live(s: State, elem: Option<nat>) {
    elem.Some? && elem.value < |s.copies| && s.copies[elem.value].frees == 0
  }

  /** free() of a pointer. */
  function Free(s: State, elem: Option<nat>): State {
    var bad := elem.Some? && !Live(s, elem);
    var t := s.(fault := s.fault || bad);
    if elem.Some? && elem.value < |s.copies| then
      t.(copies := s.copies[elem.value := s.copies[elem.value].(frees := s.copies[elem.value].frees + 1)])
    else t
  }

  function Apply(s: State, a: Action): State
    requires Enabled(s, a)
  {
    match a
    case Call(request) =>
      s.(sessions := s.sessions + [Session(request, Calling)])
    case Enter(i) =>
      if s.inUse then SetStage(s, i, Refused)
      else
        var t := SetStage(s, i, Spawning).(inUse := true, accepted := s.accepted + [i]);
        (match s.sessions[i].request
         case Media(lib, entry) =>
           t.(lib := lib, elem := Some(|s.copies|), copies := s.copies + [Copy(entry, 0)],
              leaked := s.leaked || Live(s, s.elem))
         case List(lib, plist) =>
           t.(lib := lib, plist := plist))
    case Spawn(i, created) =>
      SetStage(s, i, if created then Playing(None, None, None, None) else NoThread)
    case ReadLib(i) =>
      SetStage(s, i, s.sessions[i].stage.(lib := Some(s.lib)))
    case ReadElem(i) =>
      SetStage(s, i, s.sessions[i].stage.(elem := s.elem))
    case ReadPlist(i) =>
      SetStage(s, i, s.sessions[i].stage.(plist := Some(s.plist)))
    case UseElem(i) =>
      var elem := s.sessions[i].stage.elem;
      if Live(s, elem) then
        SetStage(s, i, s.sessions[i].stage.(seen := Some(s.copies[elem.value].text)))
      else s.(fault := true)
    case Finish(i) =>
      var t := SetStage(s, i, Done).(inUse := false, finished := s.finished + [i]);
      if s.sessions[i].request.Media? then Free(t, s.elem) else t
  }

  /** The actions can happen in this order. */
  predicate IsRun(s: State, run: seq<Action>)
    decreases |run|
  {
    run == [] || (Enabled(s, run[0]) && IsRun(Apply(s, run[0]), run[1..]))
  }

  function Exec(s: State, run: seq<Action>): State
    requires IsRun(s, run)
    decreases |run|
  {
    if run == [] then s else Exec(Apply(s, run[0]), run[1..])
  }

  // ---------- The invariant ----------

  /** The session holds the record: it is about to create its player, or the player is live. */
  predicate Active(p: Session) {
    p.stage.Spawning? || p.stage.Playing?
  }

  /** The record says what the request wrote, and its copy is live. */
  predicate RecordIs(s: State, r: Request) {
    && s.lib == r.lib
    && match r
       case Media(_, entry) => Live(s, s.elem) && s.copies[s.elem.value].text == entry
       case List(_, plist) => s.plist == plist
  }

  /** Whatever the player has read is what its own request wrote. */
  predicate ReadsOwn(s: State, p: Session) {
    p.stage.Playing? ==>
      && (p.stage.lib.Some? ==> p.stage.lib == Some(p.request.lib))
      && (p.stage.elem.Some? ==> p.request.Media? && p.stage.elem == s.elem)
      && (p.stage.seen.Some? ==> p.request.Media? && p.stage.seen == Some(p.request.entry))
      && (p.stage.plist.Some? ==> p.request.List? && p.stage.plist == Some(p.request.plist))
  }

  /** The session that was let in last. */
  function Holder(s: State): nat
    requires s.accepted != []
  {
    s.accepted[|s.accepted| - 1]
  }

  /** The session is using the record, or died before it could create its player. */
  predicate Holds(p: Session) {
    Active(p) || p.stage.NoThread?
  }

  /** While the record is in use, the last session let in holds it; nobody else ever does. */
  ghost predicate OneHolder(s: State) {
    && (s.inUse ==> (
          && s.accepted != [] && Holder(s) < |s.sessions| && Holds(s.sessions[Holder(s)])
          && RecordIs(s, s.sessions[Holder(s)].request)))
    && forall i :: 0 <= i < |s.sessions| && Holds(s.sessions[i]) ==> s.inUse && i == Holder(s)
  }

  ghost predicate AllReadOwn(s: State) {
    forall i :: 0 <= i < |s.sessions| ==> ReadsOwn(s, s.sessions[i])
  }

  /** Copies are freed at most once, and only the holder's copy is not freed yet. */
  ghost predicate CopiesOk(s: State)
    requires OneHolder(s)
  {
    forall c :: 0 <= c < |s.copies| ==>
      && s.copies[c].frees <= 1
      && (s.copies[c].frees == 0 ==>
            s.inUse && s.elem == Some(c) && s.sessions[Holder(s)].request.Media?)
  }

  /** No session that was let in is still waiting to be. */
  ghost predicate AcceptedLeft(s: State) {
    forall i :: i in s.accepted ==> i < |s.sessions| && !s.sessions[i].stage.Calling?
  }

  ghost predicate Inv(s: State) {
    && !s.fault && !s.leaked
    && OneHolder(s) && AllReadOwn(s) && CopiesOk(s) && AcceptedLeft(s)
    && s.finished == (if s.inUse then s.accepted[..|s.accepted| - 1] else s.accepted)
  }

  lemma CallKeepsInv(s: State, request: Request)
    requires Inv(s)
    ensures Inv(Apply(s, Call(request)))
  {
  }

  lemma EnterKeepsInv(s: State, i: nat)
    requires Inv(s) && Enabled(s, Enter(i))
    ensures Inv(Apply(s, Enter(i)))
  {
  }

  lemma SpawnKeepsInv(s: State, i: nat, created: bool)
    requires Inv(s) && Enabled(s, Spawn(i, created))
    ensures Inv(Apply(s, Spawn(i, created)))
  {
  }

  lemma ReadLibKeepsInv(s: State, i: nat)
    requires Inv(s) && Enabled(s, ReadLib(i))
    ensures Inv(Apply(s, ReadLib(i)))
  {
  }

  lemma ReadElemKeepsInv(s: State, i: nat)
    requires Inv(s) && Enabled(s, ReadElem(i))
    ensures Inv(Apply(s, ReadElem(i)))
  {
  }

  lemma ReadPlistKeepsInv(s: State, i: nat)
    requires Inv(s) && Enabled(s, ReadPlist(i))
    ensures Inv(Apply(s, ReadPlist(i)))
  {
  }

  lemma UseKeepsInv(s: State, i: nat)
    requires Inv(s) && Enabled(s, UseElem(i))
    ensures Inv(Apply(s, UseElem(i)))
  {
  }

  lemma FinishKeepsInv(s: State, i: nat)
    requires Inv(s) && Enabled(s, Finish(i))
    ensures Inv(Apply(s, Finish(i)))
  {
  }

  lemma ApplyKeepsInv(s: State, a: Action)
    requires Inv(s) && Enabled(s, a)
    ensures Inv(Apply(s, a))
  {
    hide Inv, Apply;
    match a
    case Call(request) => CallKeepsInv(s, request);
    case Enter(i) => EnterKeepsInv(s, i);
    case Spawn(i, created) => SpawnKeepsInv(s, i, created);
    case ReadLib(i) => ReadLibKeepsInv(s, i);
    case ReadElem(i) => ReadElemKeepsInv(s, i);
    case ReadPlist(i) => ReadPlistKeepsInv(s, i);
    case UseElem(i) => UseKeepsInv(s, i);
    case Finish(i) => FinishKeepsInv(s, i);
  }

  lemma {:induction false} RunKeepsInv(s: State, run: seq<Action>)
    requires Inv(s) && IsRun(s, run)
    ensures Inv(Exec(s, run))
    decreases |run|
  {
    hide Inv, Apply;
    if run != [] {
      ApplyKeepsInv(s, run[0]);
      RunKeepsInv(Apply(s, run[0]), run[1..]);
    }
  }

  // ---------- What holds of every interleaving ----------

  /** At most one player is live or about to be created. */
  lemma OnePlayer(run: seq<Action>, i: nat, j: nat)
    requires IsRun(INITIAL, run)
    requires i < |Exec(INITIAL, run).sessions| && Active(Exec(INITIAL, run).sessions[i])
    requires j < |Exec(INITIAL, run).sessions| && Active(Exec(INITIAL, run).sessions[j])
    ensures i == j
  {
    RunKeepsInv(INITIAL, run);
  }

  /** A player that has read its arguments, unlocked, has read what its own request wrote. */
  lemma PlayersReadOwn(run: seq<Action>, i: nat)
    requires IsRun(INITIAL, run) && Player(Exec(INITIAL, run), i)
    ensures var s := Exec(INITIAL, run);
            var request, stage := s.sessions[i].request, s.sessions[i].stage;
            && (stage.lib.Some? ==> stage.lib.value == request.lib)
            && (stage.elem.Some? ==> request.Media? && stage.elem.value < |s.copies|)
            && (stage.elem.Some? ==> s.copies[stage.elem.value] == Copy(request.entry, 0))
            && (stage.seen.Some? ==> request.Media? && stage.seen.value == request.entry)
            && (stage.plist.Some? ==> request.List? && stage.plist.value == request.plist)
  {
    RunKeepsInv(INITIAL, run);
    var s := Exec(INITIAL, run);
    assert Holds(s.sessions[i]) && ReadsOwn(s, s.sessions[i]);
  }

  /**
    No freed copy is read or freed again, no live copy loses its only pointer, and every
    copy but the one in use has been freed exactly once: even when no thread was created.
   */
  lemma CopiesAreSafe(run: seq<Action>)
    requires IsRun(INITIAL, run)
    ensures var s := Exec(INITIAL, run);
            && !s.fault && !s.leaked
            && (forall c :: 0 <= c < |s.copies| ==>
                  s.copies[c].frees == if s.inUse && Live(s, s.elem) && s.elem == Some(c) then 0 else 1)
  {
    RunKeepsInv(INITIAL, run);
  }

  /** Requests play to the end in the order they were let in, all but the current one. */
  lemma PlayedInOrder(run: seq<Action>)
    requires IsRun(INITIAL, run)
    ensures var s := Exec(INITIAL, run);
            if s.inUse then s.accepted != [] && s.finished + [Holder(s)] == s.accepted
            else s.finished == s.accepted
  {
    RunKeepsInv(INITIAL, run);
  }

  // ---------- A failed thread creation ----------

  /** Some request took the record and could not create its player. */
  predicate Stuck(s: State) {
    exists i :: 0 <= i < |s.sessions| && s.sessions[i].stage.NoThread?
  }

  lemma StuckStep(s: State, a: Action)
    requires Inv(s) && Stuck(s) && Enabled(s, a)
    ensures Stuck(Apply(s, a)) && Apply(s, a).accepted == s.accepted
  {
    var i :| 0 <= i < |s.sessions| && s.sessions[i].stage.NoThread?;
    assert Holds(s.sessions[i]);
    assert Apply(s, a).sessions[i] == s.sessions[i];
  }

  /** Then the record stays in use and no request is ever let in again. */
  lemma {:induction false} StuckForever(s: State, run: seq<Action>)
    requires Inv(s) && Stuck(s) && IsRun(s, run)
    ensures Stuck(Exec(s, run)) && Exec(s, run).inUse && Exec(s, run).accepted == s.accepted
    decreases |run|
  {
    hide Inv, Stuck, Apply;
    if run == [] {
      StuckInUse(s);
    } else {
      ApplyKeepsInv(s, run[0]);
      StuckStep(s, run[0]);
      StuckForever(Apply(s, run[0]), run[1..]);
    }
  }

  lemma StuckInUse(s: State)
    requires Inv(s) && Stuck(s)
    ensures s.inUse
  {
    var i :| 0 <= i < |s.sessions| && s.sessions[i].stage.NoThread?;
    assert Holds(s.sessions[i]);
  }

  /** Requests that were waiting are waiting still. */
  ghost predicate WaitersKept(s: State, t: State) {
    && |s.sessions| <= |t.sessions|
    && forall i :: 0 <= i < |s.sessions| && s.sessions[i].stage.Calling? ==> t.sessions[i] == s.sessions[i]
  }

  /** The record can become free again without any waiting request being refused. */
  ghost predicate CanBecomeFree(s: State) {
    exists run :: IsRun(s, run) && !Exec(s, run).inUse && WaitersKept(s, Exec(s, run))
  }

  /** One step and then a run. */
  lemma StepThen(s: State, a: Action, run: seq<Action>)
    requires Enabled(s, a) && IsRun(Apply(s, a), run)
    ensures IsRun(s, [a] + run) && Exec(s, [a] + run) == Exec(Apply(s, a), run)
  {
    hide Apply;
    assert ([a] + run)[0] == a && ([a] + run)[1..] == run;
  }

  lemma StepThenFree(s: State, a: Action)
    requires Enabled(s, a) && !a.Enter? && CanBecomeFree(Apply(s, a))
    ensures CanBecomeFree(s)
  {
    var t := Apply(s, a);
    assert WaitersKept(s, t);
    hide Apply;
    var run :| IsRun(t, run) && !Exec(t, run).inUse && WaitersKept(t, Exec(t, run));
    StepThen(s, a, run);
  }

  lemma FreeNow(s: State)
    requires !s.inUse
    ensures CanBecomeFree(s)
  {
    assert IsRun(s, []) && Exec(s, []) == s;
  }

  lemma PlayerCanFinish(s: State)
    requires Inv(s) && s.inUse && s.sessions[Holder(s)].stage.Playing?
    ensures CanBecomeFree(s)
  {
    hide CanBecomeFree;
    var i := Holder(s);
    if s.sessions[i].request.List? {
      var t := Apply(s, ReadPlist(i));
      FreeNow(Apply(t, Finish(i)));
      StepThenFree(t, Finish(i));
      StepThenFree(s, ReadPlist(i));
    } else {
      var t := Apply(s, ReadLib(i));
      var u := Apply(t, ReadElem(i));
      FreeNow(Apply(u, Finish(i)));
      StepThenFree(u, Finish(i));
      StepThenFree(t, ReadElem(i));
      StepThenFree(s, ReadLib(i));
    }
  }

  /** The record can become free again exactly when no thread creation has failed. */
  lemma FreeUnlessStuck(run: seq<Action>)
    requires IsRun(INITIAL, run)
    ensures CanBecomeFree(Exec(INITIAL, run)) <==> !Stuck(Exec(INITIAL, run))
  {
    var s := Exec(INITIAL, run);
    RunKeepsInv(INITIAL, run);
    if Stuck(s) {
      forall more | IsRun(s, more) ensures Exec(s, more).inUse { StuckForever(s, more); }
    } else if !s.inUse {
      FreeNow(s);
    } else if s.sessions[Holder(s)].stage.Spawning? {
      var i := Holder(s);
      SpawnKeepsInv(s, i, true);
      PlayerCanFinish(Apply(s, Spawn(i, true)));
      StepThenFree(s, Spawn(i, true));
    } else {
      PlayerCanFinish(s);
    }
  }

  // ---------- Who is let in ----------

  /** A request is let in exactly when nobody holds the record, and refused otherwise. */
  lemma EnterDecides(s: State, i: nat)
    requires Inv(s) && Enabled(s, Enter(i))
    ensures var t, held := Apply(s, Enter(i)), exists j :: 0 <= j < |s.sessions| && Holds(s.sessions[j]);
            && |t.sessions| == |s.sessions| && t.sessions[i].request == s.sessions[i].request
            && t.sessions[i].stage == (if held then Refused else Spawning)
            && t.accepted == (if held then s.accepted else s.accepted + [i])
  {
    if s.inUse { assert Holds(s.sessions[Holder(s)]); }
  }

  /** No other step refuses a request. */
  lemma RefusedOnlyWhenHeld(s: State, a: Action, i: nat)
    requires Inv(s) && Enabled(s, a) && i < |Apply(s, a).sessions|
    requires Apply(s, a).sessions[i].stage.Refused?
    ensures i < |s.sessions|
    ensures s.sessions[i].stage.Refused?
         || exists j :: 0 <= j < |s.sessions| && j != i && Holds(s.sessions[j])
  {
    if s.inUse { assert Holds(s.sessions[Holder(s)]); }
  }

  /** The player has got from the record all that its own request asked for. */
  predicate Heard(p: Session) {
    && p.stage.Playing?
    && match p.request
       case Media(lib, entry) => p.stage.lib == Some(lib) && p.stage.seen == Some(entry)
       case List(_, plist) => p.stage.plist == Some(plist)
  }

  /** Request `i` can be let in. */
  ghost predicate CanBeLetIn(s: State, i: nat) {
    exists run :: IsRun(s, run) && i in Exec(s, run).accepted
  }

  /** Request `i` can play what it asked for. */
  ghost predicate CanPlay(s: State, i: nat)
    requires i < |s.sessions|
  {
    exists run ::
      && IsRun(s, run) && |s.sessions| <= |Exec(s, run).sessions|
      && Exec(s, run).sessions[i].request == s.sessions[i].request && Heard(Exec(s, run).sessions[i])
  }

  lemma StepThenPlay(s: State, a: Action, i: nat)
    requires Enabled(s, a) && i < |s.sessions| <= |Apply(s, a).sessions|
    requires Apply(s, a).sessions[i].request == s.sessions[i].request && CanPlay(Apply(s, a), i)
    ensures CanPlay(s, i)
  {
    hide Apply, Heard;
    var t := Apply(s, a);
    var run :| && IsRun(t, run) && |t.sessions| <= |Exec(t, run).sessions|
               && Exec(t, run).sessions[i].request == t.sessions[i].request && Heard(Exec(t, run).sessions[i]);
    StepThen(s, a, run);
  }

  lemma PlayNow(s: State, i: nat)
    requires i < |s.sessions| && Heard(s.sessions[i])
    ensures CanPlay(s, i)
  {
    assert IsRun(s, []) && Exec(s, []) == s;
  }

  lemma FreeCanPlay(s: State, i: nat)
    requires Inv(s) && !s.inUse && Enabled(s, Enter(i))
    ensures CanPlay(s, i) && CanBeLetIn(s, i)
  {
    hide CanPlay, CanBeLetIn;
    var t := Apply(s, Enter(i));
    var u := Apply(t, Spawn(i, true));
    if s.sessions[i].request.List? {
      PlayNow(Apply(u, ReadPlist(i)), i);
      StepThenPlay(u, ReadPlist(i), i);
    } else {
      var v := Apply(u, ReadLib(i));
      var w := Apply(v, ReadElem(i));
      PlayNow(Apply(w, UseElem(i)), i);
      StepThenPlay(w, UseElem(i), i);
      StepThenPlay(v, ReadElem(i), i);
      StepThenPlay(u, ReadLib(i), i);
    }
    StepThenPlay(t, Spawn(i, true), i);
    StepThenPlay(s, Enter(i), i);
    LetInNow(s, i);
  }

  lemma LetInNow(s: State, i: nat)
    requires Enabled(s, Enter(i)) && i in Apply(s, Enter(i)).accepted
    ensures CanBeLetIn(s, i)
  {
    var t := Apply(s, Enter(i));
    assert IsRun(t, []) && Exec(t, []) == t;
    StepThen(s, Enter(i), []);
  }

  lemma {:induction false} RunThen(s: State, run: seq<Action>, more: seq<Action>)
    requires IsRun(s, run) && IsRun(Exec(s, run), more)
    ensures IsRun(s, run + more) && Exec(s, run + more) == Exec(Exec(s, run), more)
    decreases |run|
  {
    hide Apply;
    if run == [] {
      assert run + more == more;
    } else {
      assert (run + more)[0] == run[0] && (run + more)[1..] == run[1..] + more;
      RunThen(Apply(s, run[0]), run[1..], more);
    }
  }

  /** Once the record can become free, whoever waits can be let in and play. */
  lemma FreeThenPlay(s: State, i: nat)
    requires Inv(s) && Enabled(s, Enter(i)) && CanBecomeFree(s)
    ensures CanBeLetIn(s, i) && CanPlay(s, i)
  {
    hide Inv, Apply, Heard;
    var run :| IsRun(s, run) && !Exec(s, run).inUse && WaitersKept(s, Exec(s, run));
    var t := Exec(s, run);
    RunKeepsInv(s, run);
    FreeCanPlay(t, i);
    var entering :| IsRun(t, entering) && i in Exec(t, entering).accepted;
    RunThen(s, run, entering);
    var playing :| && IsRun(t, playing) && |t.sessions| <= |Exec(t, playing).sessions|
                   && Exec(t, playing).sessions[i].request == t.sessions[i].request
                   && Heard(Exec(t, playing).sessions[i]);
    RunThen(s, run, playing);
  }

  /** While the record is stuck nobody who waits is let in or plays. */
  lemma StuckNeverPlays(s: State, i: nat)
    requires Inv(s) && Enabled(s, Enter(i)) && Stuck(s)
    ensures !CanBeLetIn(s, i) && !CanPlay(s, i)
  {
    hide Apply;
    forall run | IsRun(s, run)
      ensures i !in Exec(s, run).accepted
      ensures |s.sessions| <= |Exec(s, run).sessions| ==> !Heard(Exec(s, run).sessions[i])
    {
      StuckForever(s, run);
      RunKeepsInv(s, run);
      StuckHasNoPlayer(Exec(s, run), i);
    }
  }

  lemma StuckHasNoPlayer(s: State, i: nat)
    requires Inv(s) && Stuck(s)
    ensures !Player(s, i)
  {
    var j :| 0 <= j < |s.sessions| && s.sessions[j].stage.NoThread?;
    assert Holds(s.sessions[j]);
  }

  /**
    In every reachable state, a waiting request can still be let in, and its player can
    still get to play what the request asked for, exactly when no thread creation has failed.
   */
  lemma WaitingUnlessStuck(run: seq<Action>, i: nat)
    requires IsRun(INITIAL, run)
    requires i < |Exec(INITIAL, run).sessions| && Exec(INITIAL, run).sessions[i].stage.Calling?
    ensures CanBeLetIn(Exec(INITIAL, run), i) <==> !Stuck(Exec(INITIAL, run))
    ensures CanPlay(Exec(INITIAL, run), i) <==> !Stuck(Exec(INITIAL, run))
  {
    hide Apply, CanBeLetIn, CanPlay, CanBecomeFree, Stuck;
    var s := Exec(INITIAL, run);
    RunKeepsInv(INITIAL, run);
    if Stuck(s) {
      StuckNeverPlays(s, i);
    } else {
      FreeUnlessStuck(run);
      FreeThenPlay(s, i);
    }
  }

  /** In every reachable state a new request can be made; what holds of the waiting holds of it. */
  lemma NewUnlessStuck(run: seq<Action>, request: Request)
    requires IsRun(INITIAL, run)
    ensures var s := Exec(INITIAL, run);
            && IsRun(INITIAL, run + [Call(request)])
            && var t := Exec(INITIAL, run + [Call(request)]);
            && t.sessions == s.sessions + [Session(request, Calling)]
            && (CanPlay(t, |s.sessions|) <==> !Stuck(s))
  {
    hide CanBeLetIn, CanPlay, Exec, IsRun;
    var s, more := Exec(INITIAL, run), [Call(request)];
    OneStep(s, Call(request));
    RunThen(INITIAL, run, more);
    var t := Exec(INITIAL, run + more);
    WaitingUnlessStuck(run + more, |s.sessions|);
    if Stuck(s) {
      var j :| 0 <= j < |s.sessions| && s.sessions[j].stage.NoThread?;
      assert t.sessions[j] == s.sessions[j];
    }
    if Stuck(t) {
      var j :| 0 <= j < |t.sessions| && t.sessions[j].stage.NoThread?;
      assert t.sessions[j] == s.sessions[j];
    }
  }

  lemma OneStep(s: State, a: Action)
    requires Enabled(s, a)
    ensures IsRun(s, [a]) && Exec(s, [a]) == Apply(s, a)
  {
    hide Apply;
    assert [a][1..] == [];
  }

  /** One request whose player could not be created is enough. */
  lemma OneFailureIsStuck()
    ensures var run := [Call(List(0, 0)), Enter(0), Spawn(0, false)];
            IsRun(INITIAL, run) && Stuck(Exec(INITIAL, run)) && !CanBecomeFree(Exec(INITIAL, run))
  {
    hide CanBecomeFree;
    var run := [Call(List(0, 0)), Enter(0), Spawn(0, false)];
    var s := Exec(INITIAL, run);
    assert s.sessions[0].stage.NoThread?;
    FreeUnlessStuck(run);
  }
}
