/** Properties of the mouse sensor over whole input traces: the invariant every
    transition keeps, the shape of the emitted notification log, and the
    click, drag, cancel and right-click scenarios. */
module Gestures {
  import opened Wrappers
  import opened DomTree
  import opened MouseSensor
  import opened Runs

  /** What every reachable sensor state satisfies:
      - the capture `mousedown` handler is registered exactly on the current
        hosts while attached, and nowhere while detached;
      - a running drag has a container;
      - the remembered container and the pending start's container are
        among the sensor's containers. */
  ghost predicate Inv(s: Sensor)
  {
    && (forall h :: Listener(h, MouseDownCapture) in s.listeners <==> s.attached && h in s.hosts)
    && (s.dragging ==> s.currentContainer.Some?)
    && (s.currentContainer.Some? ==> s.currentContainer.value in s.containers)
    && (s.timer.Some? ==> s.timer.value.container in s.containers)
  }

  lemma CreateInv(containers: seq<Node>, hosts: seq<Host>)
    ensures Inv(Create(containers, hosts))
  {
  }

  /** The drag the notification log is inside of: the container of the last
      uncanceled start that no stop has closed yet. */
  function Phase(s: Sensor): Option<Node>
  {
    if s.dragging then s.currentContainer else None
  }

  /** The notification grammar. Reading the log from a state where the drag
      over `active` is running (or none is), ending where `final` is running:
      a start opens a drag over its container unless it was canceled (then no
      drag runs); a move or a stop only occurs inside a running drag and
      names its container; a stop closes the drag. */
  ghost predicate Conforms(active: Option<Node>, log: seq<Notification>, final: Option<Node>)
    decreases |log|
  {
    if |log| == 0 then final == active
    else match log[0]
      case DragStart(c, _, _, _, canceled) => Conforms(if canceled then None else Some(c), log[1..], final)
      case DragMove(c, _, _, _) => active.Some? && c == active && Conforms(active, log[1..], final)
      case DragStop(c, _, _, _) => active.Some? && c == active && Conforms(None, log[1..], final)
  }

  lemma {:induction false} ConformsAppend(a: Option<Node>, l1: seq<Notification>, m: Option<Node>,
                                          l2: seq<Notification>, f: Option<Node>)
    requires Conforms(a, l1, m) && Conforms(m, l2, f)
    ensures Conforms(a, l1 + l2, f)
    decreases |l1|
  {
    if |l1| > 0 {
      assert (l1 + l2)[1..] == l1[1..] + l2;
      assert (l1 + l2)[0] == l1[0];
      match l1[0]
      case DragStart(c, _, _, _, canceled) =>
        ConformsAppend(if canceled then None else Some(c), l1[1..], m, l2, f);
      case DragMove(c, _, _, _) =>
        ConformsAppend(a, l1[1..], m, l2, f);
      case DragStop(c, _, _, _) =>
        ConformsAppend(None, l1[1..], m, l2, f);
    } else {
      assert l1 + l2 == l2;
    }
  }

  /** One transition keeps the invariant, and what it emits follows the
      grammar from the drag running before to the drag running after. */
  lemma StepConforms(dom: WfDom, s: Sensor, input: Input)
    requires Inv(s)
    ensures Inv(Step(dom, s, input).state)
    ensures Conforms(Phase(s), Step(dom, s, input).emitted, Phase(Step(dom, s, input).state))
  {
    match input
    case Attach => HostChangeConforms(dom, s, input);
    case Detach => HostChangeConforms(dom, s, input);
    case AddHost(_) => HostChangeConforms(dom, s, input);
    case RemoveHost(_) => HostChangeConforms(dom, s, input);
    case MouseDownAt(h, p) => PressConforms(dom, s, h, p);
    case TimerFire(canceled) => TimerConforms(dom, s, canceled);
    case MouseMoveAt(h, ptr) => MoveConforms(dom, s, h, ptr);
    case MouseUpAt(h, ptr) => ReleaseConforms(dom, s, h, ptr);
    case ContextMenuAt(h) =>
  }

  lemma HostChangeConforms(dom: WfDom, s: Sensor, input: Input)
    requires Inv(s) && (input.Attach? || input.Detach? || input.AddHost? || input.RemoveHost?)
    ensures Inv(Step(dom, s, input).state)
    ensures Conforms(Phase(s), Step(dom, s, input).emitted, Phase(Step(dom, s, input).state))
  {
  }

  lemma PressConforms(dom: WfDom, s: Sensor, h: Host, p: Press)
    requires Inv(s)
    ensures Inv(Step(dom, s, MouseDownAt(h, p)).state)
    ensures Conforms(Phase(s), Step(dom, s, MouseDownAt(h, p)).emitted, Phase(Step(dom, s, MouseDownAt(h, p)).state))
  {
  }

  lemma TimerConforms(dom: WfDom, s: Sensor, canceled: bool)
    requires Inv(s)
    ensures Inv(Step(dom, s, TimerFire(canceled)).state)
    ensures Conforms(Phase(s), Step(dom, s, TimerFire(canceled)).emitted, Phase(Step(dom, s, TimerFire(canceled)).state))
  {
    var t := Step(dom, s, TimerFire(canceled));
    if s.timer.Some? && s.mouseDown {
      assert t.emitted[1..] == [];
    }
  }

  lemma MoveConforms(dom: WfDom, s: Sensor, h: Host, ptr: Pointer)
    requires Inv(s)
    ensures Inv(Step(dom, s, MouseMoveAt(h, ptr)).state)
    ensures Conforms(Phase(s), Step(dom, s, MouseMoveAt(h, ptr)).emitted, Phase(Step(dom, s, MouseMoveAt(h, ptr)).state))
  {
    var t := Step(dom, s, MouseMoveAt(h, ptr));
    if t.emitted != [] {
      assert t.emitted[1..] == [];
    }
  }

  lemma ReleaseConforms(dom: WfDom, s: Sensor, h: Host, ptr: Pointer)
    requires Inv(s)
    ensures Inv(Step(dom, s, MouseUpAt(h, ptr)).state)
    ensures Conforms(Phase(s), Step(dom, s, MouseUpAt(h, ptr)).emitted, Phase(Step(dom, s, MouseUpAt(h, ptr)).state))
  {
    var t := Step(dom, s, MouseUpAt(h, ptr));
    if t.emitted != [] {
      assert t.emitted[1..] == [];
    }
  }

  /** Every run from a state satisfying the invariant keeps it, and its whole
      notification log follows the grammar: moves and stops only inside an
      uncanceled started drag, always naming that drag's container. */
  lemma {:induction false} RunConforms(dom: WfDom, s: Sensor, inputs: seq<Input>)
    requires Inv(s)
    ensures Inv(Run(dom, s, inputs).state)
    ensures Conforms(Phase(s), Run(dom, s, inputs).emitted, Phase(Run(dom, s, inputs).state))
    decreases |inputs|
  {
    if |inputs| > 0 {
      var first := Step(dom, s, inputs[0]);
      StepConforms(dom, s, inputs[0]);
      RunConforms(dom, first.state, inputs[1..]);
      ConformsAppend(Phase(s), first.emitted, Phase(first.state),
                     Run(dom, first.state, inputs[1..]).emitted, Phase(Run(dom, s, inputs).state));
    }
  }

  /** In a log read from a state with no running drag, every move and every
      stop comes after some uncanceled start. */
  lemma {:induction false} MoveOrStopFollowsStart(active: Option<Node>, log: seq<Notification>, final: Option<Node>, k: nat)
    requires Conforms(active, log, final) && active.None?
    requires k < |log| && !log[k].DragStart?
    ensures exists j :: 0 <= j < k && log[j].DragStart? && !log[j].canceled
    decreases |log|
  {
    match log[0]
    case DragStart(c, _, _, _, canceled) =>
      if canceled {
        MoveOrStopFollowsStart(None, log[1..], final, k - 1);
        var j :| 0 <= j < k - 1 && log[1..][j].DragStart? && !log[1..][j].canceled;
        assert log[j + 1] == log[1..][j];
      } else {
        assert k > 0;
      }
  }

  /** No timer fire, no start notification. */
  predicate NoTimerFire(inputs: seq<Input>)
  {
    forall i :: 0 <= i < |inputs| ==> !inputs[i].TimerFire?
  }

  /** Without a timer fire no drag begins: from a state with no running drag,
      such inputs emit nothing at all. */
  lemma {:induction false} IdleWithoutTimerIsSilent(dom: WfDom, s: Sensor, inputs: seq<Input>)
    requires Inv(s) && !s.dragging && NoTimerFire(inputs)
    ensures Run(dom, s, inputs).emitted == []
    ensures !Run(dom, s, inputs).state.dragging
    decreases |inputs|
  {
    if |inputs| > 0 {
      var first := Step(dom, s, inputs[0]);
      StepConforms(dom, s, inputs[0]);
      assert !first.state.dragging;
      assert first.emitted == [];
      assert NoTimerFire(inputs[1..]) by {
        forall i | 0 <= i < |inputs[1..]| ensures !inputs[1..][i].TimerFire? {
          assert inputs[1..][i] == inputs[i + 1];
        }
      }
      IdleWithoutTimerIsSilent(dom, first.state, inputs[1..]);
    }
  }

  /** A canceled start: one start notification, no drag, and nothing after it
      until another timer fires. */
  lemma CanceledStartIsSilent(dom: WfDom, s: Sensor, rest: seq<Input>)
    requires Inv(s) && s.timer.Some? && s.mouseDown && NoTimerFire(rest)
    ensures var t := Step(dom, s, TimerFire(true));
            && t.emitted == [DragStart(s.timer.value.container, s.timer.value.target, s.timer.value.x, s.timer.value.y, true)]
            && !t.state.dragging
            && Run(dom, t.state, rest).emitted == []
  {
    var t := Step(dom, s, TimerFire(true));
    StepConforms(dom, s, TimerFire(true));
    IdleWithoutTimerIsSilent(dom, t.state, rest);
  }

  /** A press that qualifies and lies inside a container. */
  predicate QualifyingPress(dom: WfDom, s: Sensor, p: Press)
  {
    !Ignored(p) && FindContainer(dom, s.hosts, s.containers, p.at.hits).Some?
  }

  // ---------------------------------------------------------------------------
  // Single transitions used by the scenarios below

  /** A qualifying press delivered where the `mousedown` handler listens. */
  lemma PressEffect(dom: WfDom, s: Sensor, at: Host, p: Press)
    requires Listener(at, MouseDownCapture) in s.listeners
    requires QualifyingPress(dom, s, p)
    ensures var hit := FindContainer(dom, s.hosts, s.containers, p.at.hits).value;
            var t := Step(dom, s, MouseDownAt(at, p));
            && t.emitted == []
            && t.state == s.(mouseDown := true, timer := Some(PendingStart(p.at.x, p.at.y, hit.target, hit.container)),
                             listeners := t.state.listeners)
            && (forall h :: h in s.hosts ==> Listener(h, MouseUp) in t.state.listeners)
  {
  }

  /** A release with no drag running and no context menu open. */
  lemma ReleaseIdle(dom: WfDom, s: Sensor, at: Host, up: Pointer)
    requires Listener(at, MouseUp) in s.listeners && !s.dragging && !s.openedContextMenu
    ensures var t := Step(dom, s, MouseUpAt(at, up));
            t.emitted == [] && !t.state.mouseDown && !t.state.dragging
  {
  }

  /** The timer firing after the button went up. */
  lemma TimerAfterRelease(dom: WfDom, s: Sensor, canceled: bool)
    requires !s.mouseDown && !s.dragging
    ensures var t := Step(dom, s, TimerFire(canceled));
            t.emitted == [] && !t.state.mouseDown && !t.state.dragging && t.state.timer.None?
  {
  }

  /** The timer firing while the button is down, no listener canceling. */
  lemma TimerStartsDrag(dom: WfDom, s: Sensor, at: Host)
    requires s.mouseDown && s.timer.Some? && at in s.hosts
    ensures var t := Step(dom, s, TimerFire(false));
            && t.emitted == [DragStart(s.timer.value.container, s.timer.value.target, s.timer.value.x, s.timer.value.y, false)]
            && t.state == s.(timer := None, currentContainer := Some(s.timer.value.container), dragging := true,
                             listeners := t.state.listeners)
            && Listener(at, MouseMove) in t.state.listeners
            && s.listeners <= t.state.listeners
  {
  }

  /** A move during a drag, over a point with an acceptable hit. */
  lemma MoveDuringDrag(dom: WfDom, s: Sensor, at: Host, move: Pointer)
    requires s.dragging && Listener(at, MouseMove) in s.listeners && MoveTarget(s.hosts, s.hosts, move.hits).Some?
    ensures var t := Step(dom, s, MouseMoveAt(at, move));
            t == Transition(s, [DragMove(s.currentContainer, MoveTarget(s.hosts, s.hosts, move.hits).value, move.x, move.y)])
  {
  }

  /** An ordinary release during a drag. */
  lemma ReleaseStopsDrag(dom: WfDom, s: Sensor, at: Host, up: Pointer)
    requires s.dragging && !s.openedContextMenu && Listener(at, MouseUp) in s.listeners
    ensures var t := Step(dom, s, MouseUpAt(at, up));
            t.emitted == [DragStop(s.currentContainer, FirstHit(s.hosts, up.hits), up.x, up.y)] && !t.state.dragging
  {
  }

  // ---------------------------------------------------------------------------
  // Scenarios

  /** Click: press and release before the delay elapses, then the timer
      fires. Nothing is emitted, and the sensor is left idle. */
  lemma ClickEmitsNothing(dom: WfDom, s: Sensor, at: Host, p: Press, up: Pointer, canceled: bool)
    requires Listener(at, MouseDownCapture) in s.listeners && at in s.hosts && !s.dragging && !s.openedContextMenu
    requires QualifyingPress(dom, s, p)
    ensures var t := Run(dom, s, [MouseDownAt(at, p), MouseUpAt(at, up), TimerFire(canceled)]);
            t.emitted == [] && !t.state.mouseDown && !t.state.dragging && t.state.timer.None?
  {
    PressEffect(dom, s, at, p);
    var t1 := Step(dom, s, MouseDownAt(at, p));
    assert Listener(at, MouseUp) in t1.state.listeners;
    ReleaseIdle(dom, t1.state, at, up);
    TimerAfterRelease(dom, Step(dom, t1.state, MouseUpAt(at, up)).state, canceled);
    ReplayThree(Transitions(dom), s, MouseDownAt(at, p), MouseUpAt(at, up), TimerFire(canceled));
  }

  /** Drag: press inside container `c`, let the delay elapse with no
      listener canceling, move to a point where the host the events arrive
      at has an acceptable hit, release. Exactly one start, one move and one
      stop are emitted, all on `c`. */
  lemma DragEmitsStartMoveStop(dom: WfDom, s: Sensor, at: Host, p: Press, move: Pointer, up: Pointer)
    requires Listener(at, MouseDownCapture) in s.listeners && at in s.hosts && !s.openedContextMenu
    requires QualifyingPress(dom, s, p)
    requires ValidMoveHit(s.hosts, move.hits, at)
    ensures var hit := FindContainer(dom, s.hosts, s.containers, p.at.hits).value;
            Run(dom, s, [MouseDownAt(at, p)] + [TimerFire(false), MouseMoveAt(at, move), MouseUpAt(at, up)]).emitted
            == [DragStart(hit.container, hit.target, p.at.x, p.at.y, false),
                DragMove(Some(hit.container), MoveTarget(s.hosts, s.hosts, move.hits).value, move.x, move.y),
                DragStop(Some(hit.container), FirstHit(s.hosts, up.hits), up.x, up.y)]
  {
    PressEffect(dom, s, at, p);
    var t1 := Step(dom, s, MouseDownAt(at, p));
    assert Listener(at, MouseUp) in t1.state.listeners;
    PendingDrag(dom, t1.state, at, move, up);
    var rest := [TimerFire(false), MouseMoveAt(at, move), MouseUpAt(at, up)];
    RunCons(dom, s, MouseDownAt(at, p), rest);
  }

  /** A run of `[i] + rest` is one step followed by the run of `rest`. */
  lemma RunCons(dom: WfDom, s: Sensor, i: Input, rest: seq<Input>)
    ensures Run(dom, s, [i] + rest).emitted == Step(dom, s, i).emitted + Run(dom, Step(dom, s, i).state, rest).emitted
  {
    ReplayCons(Transitions(dom), s, i, rest);
  }

  /** From a pressed button with the start delay pending: the timer starts
      the drag, a move reports the target, and the release stops it. */
  lemma PendingDrag(dom: WfDom, s: Sensor, at: Host, move: Pointer, up: Pointer)
    requires s.mouseDown && s.timer.Some? && at in s.hosts && !s.openedContextMenu
    requires Listener(at, MouseUp) in s.listeners && MoveTarget(s.hosts, s.hosts, move.hits).Some?
    ensures Run(dom, s, [TimerFire(false), MouseMoveAt(at, move), MouseUpAt(at, up)]).emitted
            == [DragStart(s.timer.value.container, s.timer.value.target, s.timer.value.x, s.timer.value.y, false),
                DragMove(Some(s.timer.value.container), MoveTarget(s.hosts, s.hosts, move.hits).value, move.x, move.y),
                DragStop(Some(s.timer.value.container), FirstHit(s.hosts, up.hits), up.x, up.y)]
  {
    TimerStartsDrag(dom, s, at);
    var t2 := Step(dom, s, TimerFire(false));
    MoveDuringDrag(dom, t2.state, at, move);
    ReleaseStopsDrag(dom, t2.state, at, up);
    ReplayThree(Transitions(dom), s, TimerFire(false), MouseMoveAt(at, move), MouseUpAt(at, up));
  }

  /** Right-click during a drag: the context menu is flagged once, the next
      release keeps the button down and the drag running and emits nothing,
      and a second release stops the drag. */
  lemma RightClickContinuesDrag(dom: WfDom, s: Sensor, at: Host, up1: Pointer, up2: Pointer)
    requires s.dragging && !s.openedContextMenu
    requires Listener(at, ContextMenu) in s.listeners && Listener(at, MouseUp) in s.listeners
    ensures var t := Run(dom, s, [ContextMenuAt(at), MouseUpAt(at, up1)]);
            && t.emitted == [] && t.state.dragging && t.state.mouseDown && !t.state.openedContextMenu
            && t.state.listeners == s.listeners && t.state.currentContainer == s.currentContainer
    ensures Run(dom, s, [ContextMenuAt(at), MouseUpAt(at, up1), MouseUpAt(at, up2)]).emitted
            == [DragStop(s.currentContainer, FirstHit(s.hosts, up2.hits), up2.x, up2.y)]
  {
    var t1 := Step(dom, s, ContextMenuAt(at));
    assert t1 == Transition(s.(openedContextMenu := true), []);
    var t2 := Step(dom, t1.state, MouseUpAt(at, up1));
    assert t2 == Transition(s.(mouseDown := true), []);
    ReleaseStopsDrag(dom, t2.state, at, up2);
    ReplayTwo(Transitions(dom), s, ContextMenuAt(at), MouseUpAt(at, up1));
    ReplayThree(Transitions(dom), s, ContextMenuAt(at), MouseUpAt(at, up1), MouseUpAt(at, up2));
  }

  /** A second press during a continued drag restarts the start delay: after
      a right-click and its continuing release, a new qualifying press and
      its timer emit another start while the first drag was never stopped.
      So a log is not in general start, moves, stop per gesture; it only
      follows `Conforms`. */
  lemma SecondStartDuringDrag(dom: WfDom, s: Sensor, at: Host, up: Pointer, p: Press)
    requires s.dragging && !s.openedContextMenu && at in s.hosts
    requires Listener(at, ContextMenu) in s.listeners && Listener(at, MouseUp) in s.listeners
    requires Listener(at, MouseDownCapture) in s.listeners
    requires QualifyingPress(dom, s, p)
    ensures var hit := FindContainer(dom, s.hosts, s.containers, p.at.hits).value;
            var t := Run(dom, s, [ContextMenuAt(at)] + [MouseUpAt(at, up)] + [MouseDownAt(at, p), TimerFire(false)]);
            && t.emitted == [DragStart(hit.container, hit.target, p.at.x, p.at.y, false)]
            && t.state.dragging
  {
    var s2 := s.(mouseDown := true);
    assert Step(dom, s, ContextMenuAt(at)).state == s.(openedContextMenu := true);
    assert Step(dom, s.(openedContextMenu := true), MouseUpAt(at, up)) == Transition(s2, []);
    assert QualifyingPress(dom, s2, p);
    PressAndStart(dom, s2, at, p);
    ReplayTwo(Transitions(dom), s, ContextMenuAt(at), MouseUpAt(at, up));
    ReplayAppend(Transitions(dom), s, [ContextMenuAt(at)] + [MouseUpAt(at, up)], [MouseDownAt(at, p), TimerFire(false)]);
  }

  /** A qualifying press followed by its timer firing uncanceled starts a drag. */
  lemma PressAndStart(dom: WfDom, s: Sensor, at: Host, p: Press)
    requires Listener(at, MouseDownCapture) in s.listeners && at in s.hosts
    requires QualifyingPress(dom, s, p)
    ensures var hit := FindContainer(dom, s.hosts, s.containers, p.at.hits).value;
            var t := Run(dom, s, [MouseDownAt(at, p), TimerFire(false)]);
            && t.emitted == [DragStart(hit.container, hit.target, p.at.x, p.at.y, false)]
            && t.state.dragging
            && t.state.hosts == s.hosts && t.state.containers == s.containers
            && t.state.openedContextMenu == s.openedContextMenu && s.listeners <= t.state.listeners
            && Listener(at, ContextMenu) in t.state.listeners && Listener(at, MouseUp) in t.state.listeners
  {
    PressEffect(dom, s, at, p);
    var t1 := Step(dom, s, MouseDownAt(at, p));
    TimerStartsDrag(dom, t1.state, at);
    ReplayTwo(Transitions(dom), s, MouseDownAt(at, p), TimerFire(false));
  }

  /** A canceled restart strands the context-menu handler: after a
      right-click and its continuing release during a drag, a new press
      whose start a listener cancels ends the drag without the release
      reaching the code that unregisters `contextmenu`. The sensor is then
      idle, yet the handler stays registered. */
  lemma CanceledRestartKeepsContextMenu(dom: WfDom, s: Sensor, at: Host, up1: Pointer, p: Press, up2: Pointer)
    requires s.dragging && !s.openedContextMenu && at in s.hosts
    requires Listener(at, ContextMenu) in s.listeners && Listener(at, MouseUp) in s.listeners
    requires Listener(at, MouseDownCapture) in s.listeners
    requires QualifyingPress(dom, s, p)
    ensures var hit := FindContainer(dom, s.hosts, s.containers, p.at.hits).value;
            var t := Run(dom, s, [ContextMenuAt(at), MouseUpAt(at, up1)] + [MouseDownAt(at, p), TimerFire(true), MouseUpAt(at, up2)]);
            && t.emitted == [DragStart(hit.container, hit.target, p.at.x, p.at.y, true)]
            && !t.state.dragging && !t.state.mouseDown && !t.state.openedContextMenu && t.state.timer.None?
            && Listener(at, ContextMenu) in t.state.listeners && Listener(at, MouseDownCapture) in t.state.listeners
            && t.state.hosts == s.hosts && t.state.containers == s.containers
  {
    var s2 := s.(mouseDown := true);
    assert Step(dom, s, ContextMenuAt(at)).state == s.(openedContextMenu := true);
    assert Step(dom, s.(openedContextMenu := true), MouseUpAt(at, up1)) == Transition(s2, []);
    ReplayTwo(Transitions(dom), s, ContextMenuAt(at), MouseUpAt(at, up1));
    assert QualifyingPress(dom, s2, p);
    CanceledPressRelease(dom, s2, at, p, up2);
    ReplayAppend(Transitions(dom), s, [ContextMenuAt(at), MouseUpAt(at, up1)], [MouseDownAt(at, p), TimerFire(true), MouseUpAt(at, up2)]);
  }

  /** A qualifying press whose start a listener cancels, then its release:
      one canceled start, and no drag, button or pending start afterwards;
      the registrations other than the press's own are kept. */
  lemma CanceledPressRelease(dom: WfDom, s: Sensor, at: Host, p: Press, up: Pointer)
    requires !s.openedContextMenu && at in s.hosts
    requires Listener(at, MouseDownCapture) in s.listeners
    requires QualifyingPress(dom, s, p)
    ensures var hit := FindContainer(dom, s.hosts, s.containers, p.at.hits).value;
            var t := Run(dom, s, [MouseDownAt(at, p), TimerFire(true), MouseUpAt(at, up)]);
            && t.emitted == [DragStart(hit.container, hit.target, p.at.x, p.at.y, true)]
            && !t.state.dragging && !t.state.mouseDown && !t.state.openedContextMenu && t.state.timer.None?
            && (Listener(at, ContextMenu) in s.listeners ==> Listener(at, ContextMenu) in t.state.listeners)
            && Listener(at, MouseDownCapture) in t.state.listeners
            && t.state.hosts == s.hosts && t.state.containers == s.containers
  {
    PressEffect(dom, s, at, p);
    var t1 := Step(dom, s, MouseDownAt(at, p));
    var t2 := Step(dom, t1.state, TimerFire(true));
    assert t2.state.listeners == t1.state.listeners && !t2.state.dragging;
    ReleaseIdle(dom, t2.state, at, up);
    ReplayThree(Transitions(dom), s, MouseDownAt(at, p), TimerFire(true), MouseUpAt(at, up));
  }

  /** The stranded context-menu handler is reachable from a new sensor:
      attach, drag, right-click and release, then a canceled restart and its
      release. */
  lemma StrayContextMenuReachable(dom: WfDom, containers: seq<Node>, hosts: seq<Host>, at: Host,
                                  p1: Press, up1: Pointer, p2: Press, up2: Pointer)
    requires at in hosts
    requires QualifyingPress(dom, Create(containers, hosts), p1) && QualifyingPress(dom, Create(containers, hosts), p2)
    ensures var t := Run(dom, Create(containers, hosts),
                         [Attach] + [MouseDownAt(at, p1), TimerFire(false)]
                         + ([ContextMenuAt(at), MouseUpAt(at, up1)] + [MouseDownAt(at, p2), TimerFire(true), MouseUpAt(at, up2)]));
            && !t.state.dragging && !t.state.mouseDown && !t.state.openedContextMenu && t.state.timer.None?
            && Listener(at, ContextMenu) in t.state.listeners && Listener(at, MouseDownCapture) in t.state.listeners
            && t.state.hosts == hosts && t.state.containers == containers
  {
    var s0 := Create(containers, hosts);
    var start := [MouseDownAt(at, p1), TimerFire(false)];
    var stray := [ContextMenuAt(at), MouseUpAt(at, up1)] + [MouseDownAt(at, p2), TimerFire(true), MouseUpAt(at, up2)];
    var s1 := OnAttach(s0);
    assert Step(dom, s0, Attach).state == s1;
    ReplayCons(Transitions(dom), s0, Attach, start);
    PressAndStart(dom, s1, at, p1);
    var s2 := Run(dom, s1, start).state;
    assert Listener(at, MouseDownCapture) in s2.listeners;
    CanceledRestartKeepsContextMenu(dom, s2, at, up1, p2, up2);
    ReplayAppend(Transitions(dom), s0, [Attach] + start, stray);
  }

  /** A stray context-menu handler turns a click into a drag: a right-click
      sets the flag, the click's release is taken as a continuation that
      keeps the button down, and the timer then emits an uncanceled start
      although the button is up. */
  lemma ClickAfterStrayContextMenuStarts(dom: WfDom, s: Sensor, at: Host, p: Press, up: Pointer)
    requires !s.dragging && at in s.hosts
    requires Listener(at, ContextMenu) in s.listeners && Listener(at, MouseDownCapture) in s.listeners
    requires QualifyingPress(dom, s, p)
    ensures var hit := FindContainer(dom, s.hosts, s.containers, p.at.hits).value;
            var t := Run(dom, s, [ContextMenuAt(at)] + [MouseDownAt(at, p), MouseUpAt(at, up), TimerFire(false)]);
            && t.emitted == [DragStart(hit.container, hit.target, p.at.x, p.at.y, false)]
            && t.state.dragging && t.state.mouseDown
  {
    var s1 := s.(openedContextMenu := true);
    assert Step(dom, s, ContextMenuAt(at)) == Transition(s1, []);
    assert QualifyingPress(dom, s1, p);
    PressEffect(dom, s1, at, p);
    var t2 := Step(dom, s1, MouseDownAt(at, p));
    assert Listener(at, MouseUp) in t2.state.listeners;
    var t3 := Step(dom, t2.state, MouseUpAt(at, up));
    assert t3 == Transition(t2.state.(openedContextMenu := false, mouseDown := true), []);
    TimerStartsDrag(dom, t3.state, at);
    ReplayThree(Transitions(dom), s1, MouseDownAt(at, p), MouseUpAt(at, up), TimerFire(false));
    ReplayCons(Transitions(dom), s, ContextMenuAt(at), [MouseDownAt(at, p), MouseUpAt(at, up), TimerFire(false)]);
  }
}
