/** `MouseSensor`: turns native mouse events on one or more hosts into drag
    start, move and stop notifications. The sensor is an immutable record and
    every input is a pure transition returning the next record together with
    the notifications it emitted. */
module MouseSensor {
  import opened Wrappers
  import opened DomTree
  import opened Ancestor

  /** The handlers the sensor registers on a host. `MouseDownCapture` is the
      capture-phase `mousedown` listener; `NativeDragStart` is the listener
      that suppresses the browser's own `dragstart`. */
  datatype ListenerKind = MouseDownCapture | MouseUp | NativeDragStart | MouseMove | ContextMenu

  /** One `addEventListener` registration. Registering an identical listener
      twice is a no-op in the DOM, so the registrations form a set. */
  datatype Listener = Listener(host: Host, kind: ListenerKind)

  /** The closure the press handler schedules with `setTimeout`. */
  datatype PendingStart = PendingStart(x: int, y: int, target: Node, container: Node)

  /** The sensor's fields. `dragging` starts out `undefined`, which behaves
      as `false`; `currentContainer` starts out `undefined`, modelled as `None`. */
  datatype Sensor = Sensor(
    hosts: seq<Host>,
    containers: seq<Node>,
    attached: bool,
    mouseDown: bool,
    dragging: bool,
    openedContextMenu: bool,
    currentContainer: Option<Node>,
    timer: Option<PendingStart>,
    listeners: set<Listener>)

  /** Pointer coordinates and, per host, what `host.elementFromPoint` returns
      there (a host that is absent from `hits` returns null). */
  datatype Pointer = Pointer(x: int, y: int, hits: map<Host, Node>)

  datatype Press = Press(button: int, ctrlKey: bool, metaKey: bool, shiftKey: bool, altKey: bool, at: Pointer)

  /** The sensor's inputs: its public API calls, the native events (each
      delivered at the host it is dispatched on), and the firing of the
      pending start timer together with the listeners' cancel decision. */
  datatype Input =
    | Attach
    | Detach
    | AddHost(added: seq<Host>)
    | RemoveHost(removed: seq<Host>)
    | MouseDownAt(host: Host, press: Press)
    | TimerFire(canceled: bool)
    | MouseMoveAt(host: Host, pointer: Pointer)
    | MouseUpAt(host: Host, pointer: Pointer)
    | ContextMenuAt(host: Host)

  /** The notifications `trigger` dispatches. A start records whether a
      listener canceled it. */
  datatype Notification =
    | DragStart(container: Node, target: Node, x: int, y: int, canceled: bool)
    | DragMove(current: Option<Node>, target: Node, x: int, y: int)
    | DragStop(current: Option<Node>, stopTarget: Option<Node>, x: int, y: int)

  datatype Transition = Transition(state: Sensor, emitted: seq<Notification>)

  /** The constructor: nothing pressed, nothing registered. */
  function Create(containers: seq<Node>, hosts: seq<Host>): (s: Sensor)
    ensures s.hosts == hosts && s.containers == containers
    ensures !s.attached && !s.mouseDown && !s.dragging && !s.openedContextMenu
    ensures s.currentContainer.None? && s.timer.None? && s.listeners == {}
  {
    Sensor(hosts, containers, false, false, false, false, None, None, {})
  }

  /** The registrations `addHostsEventListener(kind, …)` makes: one per host. */
  function OnAll(hosts: seq<Host>, kind: ListenerKind): (r: set<Listener>)
    ensures forall l :: l in r <==> l.host in hosts && l.kind == kind
  {
    set h | h in hosts :: Listener(h, kind)
  }

  /** `hosts` with every occurrence of the removed hosts dropped. */
  function Without(hosts: seq<Host>, removed: seq<Host>): (r: seq<Host>)
    ensures forall h :: h in r <==> h in hosts && h !in removed
    ensures |r| <= |hosts|
  {
    if |hosts| == 0 then []
    else if hosts[0] in removed then Without(hosts[1..], removed)
    else [hosts[0]] + Without(hosts[1..], removed)
  }

  // ---------------------------------------------------------------------------
  // Host management

  /** `attach`: mark attached and register the capture `mousedown` handler on every host. */
  function OnAttach(s: Sensor): (t: Sensor)
    ensures t.attached
    ensures forall h :: h in s.hosts ==> Listener(h, MouseDownCapture) in t.listeners
    ensures forall l: Listener :: l.kind != MouseDownCapture || l.host !in s.hosts ==> (l in t.listeners <==> l in s.listeners)
    ensures t == s.(attached := t.attached, listeners := t.listeners)
  {
    s.(attached := true, listeners := s.listeners + OnAll(s.hosts, MouseDownCapture))
  }

  /** `detach`: mark detached and unregister `mousedown` from every host. */
  function OnDetach(s: Sensor): (t: Sensor)
    ensures !t.attached
    ensures forall h :: h in s.hosts ==> Listener(h, MouseDownCapture) !in t.listeners
    ensures forall l: Listener :: l.kind != MouseDownCapture || l.host !in s.hosts ==> (l in t.listeners <==> l in s.listeners)
    ensures t == s.(attached := t.attached, listeners := t.listeners)
  {
    s.(attached := false, listeners := s.listeners - OnAll(s.hosts, MouseDownCapture))
  }

  /** `addHost`: append the hosts; while attached, each new host gets the
      `mousedown` handler (removed, then added again). */
  function OnAddHost(s: Sensor, added: seq<Host>): (t: Sensor)
    ensures t.hosts == s.hosts + added
    ensures s.attached ==> forall h :: h in added ==> Listener(h, MouseDownCapture) in t.listeners
    ensures !s.attached ==> t.listeners == s.listeners
    ensures forall l: Listener :: l.host !in added || l.kind != MouseDownCapture ==> (l in t.listeners <==> l in s.listeners)
    ensures t == s.(hosts := t.hosts, listeners := t.listeners)
  {
    var listeners :=
      if s.attached then s.listeners - OnAll(added, MouseDownCapture) + OnAll(added, MouseDownCapture)
      else s.listeners;
    s.(hosts := s.hosts + added, listeners := listeners)
  }

  /** `removeHost`: drop the hosts; while attached, their `mousedown`
      handler is unregistered (their other listeners stay). */
  function OnRemoveHost(s: Sensor, removed: seq<Host>): (t: Sensor)
    ensures forall h :: h in t.hosts <==> h in s.hosts && h !in removed
    ensures s.attached ==> forall h :: h in removed ==> Listener(h, MouseDownCapture) !in t.listeners
    ensures !s.attached ==> t.listeners == s.listeners
    ensures forall l: Listener :: l.host !in removed || l.kind != MouseDownCapture ==> (l in t.listeners <==> l in s.listeners)
    ensures t == s.(hosts := t.hosts, listeners := t.listeners)
  {
    var listeners :=
      if s.attached then s.listeners - OnAll(removed, MouseDownCapture)
      else s.listeners;
    s.(hosts := Without(s.hosts, removed), listeners := listeners)
  }

  // ---------------------------------------------------------------------------
  // Press: finding the target and the container

  /** The container `closest(target, this.containers, [host])` finds for the
      hit under the pointer on host `h`, if there is a hit. */
  function ContainerAt(dom: WfDom, containers: seq<Node>, hits: map<Host, Node>, h: Host): (r: Option<Node>)
    ensures r.Some? ==> h in hits && r.value in containers
  {
    if h in hits then Closest(dom, Some(hits[h]), Candidates(containers), Some([h])) else None
  }

  /** The container found on `h` is the nearest one: there is none exactly
      when `h` has no hit or no node tested on the walk up from the hit is a
      container, and otherwise it is the first tested node that is one. */
  lemma ContainerAtIsNearest(dom: WfDom, containers: seq<Node>, hits: map<Host, Node>, h: Host)
    ensures ContainerAt(dom, containers, hits, h).None?
            <==> h !in hits || NoneSatisfy(dom, Candidates(containers), Tested(dom, h, hits[h]))
    ensures ContainerAt(dom, containers, hits, h).Some?
            ==> FirstSatisfying(dom, Candidates(containers), Tested(dom, h, hits[h]), ContainerAt(dom, containers, hits, h).value)
  {
    if h in hits {
      ClosestSingleIsNearest(dom, Candidates(containers), h, hits[h]);
      assert ClosestIn(dom, Candidates(containers), [h], hits[h]) == ClosestSingle(dom, Candidates(containers), h, hits[h]);
    }
  }

  /** No host of `hosts` has a hit inside a container. */
  ghost predicate NoContainer(dom: WfDom, containers: seq<Node>, hits: map<Host, Node>, hosts: seq<Host>)
  {
    forall i :: 0 <= i < |hosts| ==> ContainerAt(dom, containers, hits, hosts[i]).None?
  }

  /** What the press handler's host loop settles on. */
  datatype PressHit = PressHit(host: Host, target: Node, container: Node)

  /** The press handler's host loop: the first host whose hit lies inside a
      container (`FindContainerIsFirst`). Embedded host roots are not skipped
      here. */
  function FindContainer(dom: WfDom, hosts: seq<Host>, containers: seq<Node>, hits: map<Host, Node>): (r: Option<PressHit>)
    ensures r.None? <==> NoContainer(dom, containers, hits, hosts)
    ensures r.Some? ==> r.value.host in hosts && r.value.host in hits && hits[r.value.host] == r.value.target
                        && ContainerAt(dom, containers, hits, r.value.host) == Some(r.value.container)
                        && r.value.container in containers
  {
    if |hosts| == 0 then None
    else
      var h := hosts[0];
      var found := ContainerAt(dom, containers, hits, h);
      if found.Some? then Some(PressHit(h, hits[h], found.value))
      else
        var rest := FindContainer(dom, hosts[1..], containers, hits);
        assert forall i :: 0 < i < |hosts| ==> hosts[i] == hosts[1..][i - 1];
        rest
  }

  /** The position of the first host whose hit lies inside a container, or
      `|hosts|` when there is none (`FirstContainerIndexIsFirst`). */
  function FirstContainerIndex(dom: WfDom, containers: seq<Node>, hits: map<Host, Node>, hosts: seq<Host>): nat
    decreases |hosts|
  {
    if |hosts| == 0 || ContainerAt(dom, containers, hits, hosts[0]).Some? then 0
    else FirstContainerIndex(dom, containers, hits, hosts[1..]) + 1
  }

  /** Every host before `FirstContainerIndex` has no hit inside a container,
      and the host there, if any, has one. */
  lemma {:induction false} FirstContainerIndexIsFirst(dom: WfDom, containers: seq<Node>, hits: map<Host, Node>, hosts: seq<Host>)
    ensures FirstContainerIndex(dom, containers, hits, hosts) <= |hosts|
    ensures forall j :: 0 <= j < FirstContainerIndex(dom, containers, hits, hosts) && j < |hosts|
                        ==> ContainerAt(dom, containers, hits, hosts[j]).None?
    ensures FirstContainerIndex(dom, containers, hits, hosts) < |hosts|
            ==> ContainerAt(dom, containers, hits, hosts[FirstContainerIndex(dom, containers, hits, hosts)]).Some?
    decreases |hosts|
  {
    if |hosts| > 0 && ContainerAt(dom, containers, hits, hosts[0]).None? {
      FirstContainerIndexIsFirst(dom, containers, hits, hosts[1..]);
      forall j | 0 < j < FirstContainerIndex(dom, containers, hits, hosts) && j < |hosts|
        ensures ContainerAt(dom, containers, hits, hosts[j]).None?
      {
        assert hosts[j] == hosts[1..][j - 1];
      }
    }
  }

  /** The lookup settles on the first host whose hit lies inside a
      container, because the loop breaks there: it succeeds exactly when
      there is such a host, and then returns that host. */
  lemma {:induction false} FindContainerIsFirst(dom: WfDom, hosts: seq<Host>, containers: seq<Node>, hits: map<Host, Node>)
    ensures FindContainer(dom, hosts, containers, hits).Some? <==> FirstContainerIndex(dom, containers, hits, hosts) < |hosts|
    ensures FirstContainerIndex(dom, containers, hits, hosts) < |hosts|
            ==> FindContainer(dom, hosts, containers, hits).Some?
                && FindContainer(dom, hosts, containers, hits).value.host == hosts[FirstContainerIndex(dom, containers, hits, hosts)]
    decreases |hosts|
  {
    if |hosts| > 0 && ContainerAt(dom, containers, hits, hosts[0]).None? {
      FindContainerIsFirst(dom, hosts[1..], containers, hits);
    }
  }

  /** Presses the sensor ignores: any button but the primary one, or with
      Ctrl or Meta held. Shift and Alt are not looked at. */
  predicate Ignored(p: Press)
  {
    p.button != 0 || p.ctrlKey || p.metaKey
  }

  /** The press handler. The `mouseup` handler is registered on every host
      before the container lookup; a press outside every container stops
      there. Otherwise the native-drag suppression is registered, the press is
      recorded and the pending start replaces any earlier one. */
  function OnMouseDown(dom: WfDom, s: Sensor, p: Press): (t: Transition)
    ensures t.emitted == []
    ensures Ignored(p) ==> t.state == s
    ensures !Ignored(p) && FindContainer(dom, s.hosts, s.containers, p.at.hits).None? ==>
              t.state == s.(listeners := s.listeners + OnAll(s.hosts, MouseUp))
    ensures !Ignored(p) && FindContainer(dom, s.hosts, s.containers, p.at.hits).Some? ==>
              var hit := FindContainer(dom, s.hosts, s.containers, p.at.hits).value;
              && t.state.mouseDown
              && t.state.timer == Some(PendingStart(p.at.x, p.at.y, hit.target, hit.container))
              && t.state.listeners == s.listeners + OnAll(s.hosts, MouseUp) + OnAll(s.hosts, NativeDragStart)
              && t.state == s.(mouseDown := true, timer := t.state.timer, listeners := t.state.listeners)
  {
    if Ignored(p) then Transition(s, [])
    else
      var withUp := s.listeners + OnAll(s.hosts, MouseUp);
      match FindContainer(dom, s.hosts, s.containers, p.at.hits)
      case None => Transition(s.(listeners := withUp), [])
      case Some(hit) =>
        var listeners := withUp + {Listener(hit.host, NativeDragStart)} + OnAll(s.hosts, NativeDragStart);
        assert listeners == withUp + OnAll(s.hosts, NativeDragStart);
        Transition(s.(listeners := listeners, mouseDown := true,
                      timer := Some(PendingStart(p.at.x, p.at.y, hit.target, hit.container))), [])
  }

  // ---------------------------------------------------------------------------
  // The start timer

  /** The scheduled callback: if the button is still down, emit a start on
      the container, remember it, and decide `dragging` from the cancel
      decision; only an uncanceled start registers the move and context-menu
      handlers. The pending token is used up either way. */
  function OnTimerFire(s: Sensor, canceled: bool): (t: Transition)
    ensures t.state.timer.None?
    ensures s.timer.None? || !s.mouseDown ==> t.state == s.(timer := None) && t.emitted == []
    ensures s.timer.Some? && s.mouseDown ==>
              var start := s.timer.value;
              && t.emitted == [DragStart(start.container, start.target, start.x, start.y, canceled)]
              && t.state.currentContainer == Some(start.container)
              && t.state.dragging == !canceled
              && (canceled ==> t.state.listeners == s.listeners)
              && (!canceled ==> t.state.listeners == s.listeners + OnAll(s.hosts, MouseMove) + OnAll(s.hosts, ContextMenu))
              && t.state == s.(timer := None, currentContainer := t.state.currentContainer,
                               dragging := t.state.dragging, listeners := t.state.listeners)
  {
    match s.timer
    case None => Transition(s, [])
    case Some(start) =>
      if !s.mouseDown then Transition(s.(timer := None), [])
      else
        var dragging := !canceled;
        var listeners :=
          if dragging then
            s.listeners - OnAll(s.hosts, ContextMenu) - OnAll(s.hosts, MouseMove)
                        + OnAll(s.hosts, ContextMenu) + OnAll(s.hosts, MouseMove)
          else s.listeners;
        Transition(s.(timer := None, currentContainer := Some(start.container), dragging := dragging,
                      listeners := listeners),
                   [DragStart(start.container, start.target, start.x, start.y, canceled)])
  }

  // ---------------------------------------------------------------------------
  // Move

  /** The element is some registered host's `.host`, that is, the root of a
      nested sensor. */
  predicate Embedded(hosts: seq<Host>, n: Node)
  {
    exists h :: h in hosts && h.shadowHost == Some(n)
  }

  /** Host `h` has a hit that is not an embedded host root. */
  predicate ValidMoveHit(hosts: seq<Host>, hits: map<Host, Node>, h: Host)
  {
    h in hits && !Embedded(hosts, hits[h])
  }

  /** The move handler's host loop over `scan` (a prefix of `hosts`): it
      overwrites its target with every acceptable hit, so the result is the
      hit of the LAST host whose hit is not an embedded host root. */
  function MoveTarget(hosts: seq<Host>, scan: seq<Host>, hits: map<Host, Node>): (r: Option<Node>)
    ensures r.None? <==> forall i :: 0 <= i < |scan| ==> !ValidMoveHit(hosts, hits, scan[i])
    ensures r.Some? ==> exists i :: 0 <= i < |scan| && ValidMoveHit(hosts, hits, scan[i]) && r.value == hits[scan[i]]
                          && forall j :: i < j < |scan| ==> !ValidMoveHit(hosts, hits, scan[j])
  {
    if |scan| == 0 then None
    else
      var last := scan[|scan| - 1];
      if ValidMoveHit(hosts, hits, last) then Some(hits[last])
      else
        var r := MoveTarget(hosts, scan[..|scan| - 1], hits);
        assert forall i :: 0 <= i < |scan| - 1 ==> scan[..|scan| - 1][i] == scan[i];
        r
  }

  /** The move handler: while dragging, emit a move carrying the current
      container and the last acceptable hit; with no such hit, nothing. */
  function OnMouseMove(s: Sensor, ptr: Pointer): (t: Transition)
    ensures t.state == s
    ensures !s.dragging ==> t.emitted == []
    ensures s.dragging && MoveTarget(s.hosts, s.hosts, ptr.hits).None? ==> t.emitted == []
    ensures s.dragging && MoveTarget(s.hosts, s.hosts, ptr.hits).Some? ==>
              t.emitted == [DragMove(s.currentContainer, MoveTarget(s.hosts, s.hosts, ptr.hits).value, ptr.x, ptr.y)]
  {
    if !s.dragging then Transition(s, [])
    else match MoveTarget(s.hosts, s.hosts, ptr.hits)
      case None => Transition(s, [])
      case Some(target) => Transition(s, [DragMove(s.currentContainer, target, ptr.x, ptr.y)])
  }

  // ---------------------------------------------------------------------------
  // Release and context menu

  /** The release handler's host loop: the first host with any hit at all. */
  function FirstHit(hosts: seq<Host>, hits: map<Host, Node>): (r: Option<Node>)
    ensures r.None? <==> forall i :: 0 <= i < |hosts| ==> hosts[i] !in hits
    ensures r.Some? ==> exists i :: 0 <= i < |hosts| && hosts[i] in hits && r.value == hits[hosts[i]]
                          && forall j :: 0 <= j < i ==> hosts[j] !in hits
  {
    if |hosts| == 0 then None
    else if hosts[0] in hits then Some(hits[hosts[0]])
    else
      var r := FirstHit(hosts[1..], hits);
      assert forall i :: 0 < i < |hosts| ==> hosts[i] == hosts[1..][i - 1];
      r
  }

  /** The release handler. After a context menu opened during the drag the
      release only clears the flag, leaving the button down and the drag
      running. Otherwise the button is up, the release, native-drag and move
      handlers are unregistered, and a running drag stops on its container
      and is reset. */
  function OnMouseUp(s: Sensor, ptr: Pointer): (t: Transition)
    ensures s.openedContextMenu ==>
              t.emitted == [] && t.state == s.(openedContextMenu := false, mouseDown := true)
    ensures !s.openedContextMenu ==>
              && !t.state.mouseDown && !t.state.dragging
              && (forall h :: h in s.hosts ==>
                    Listener(h, MouseUp) !in t.state.listeners && Listener(h, NativeDragStart) !in t.state.listeners
                    && Listener(h, MouseMove) !in t.state.listeners)
              && t.state.listeners <= s.listeners
    ensures !s.openedContextMenu && !s.dragging ==>
              t.emitted == []
              && t.state == s.(mouseDown := false, listeners := s.listeners - OnAll(s.hosts, MouseUp)
                                 - OnAll(s.hosts, NativeDragStart) - OnAll(s.hosts, MouseMove))
    ensures !s.openedContextMenu && s.dragging ==>
              && t.emitted == [DragStop(s.currentContainer, FirstHit(s.hosts, ptr.hits), ptr.x, ptr.y)]
              && t.state.currentContainer.None?
              && (forall h :: h in s.hosts ==> Listener(h, ContextMenu) !in t.state.listeners)
              && t.state == s.(mouseDown := false, dragging := false, currentContainer := None, listeners := t.state.listeners)
    ensures !s.openedContextMenu ==>
              forall l: Listener :: l.host !in s.hosts || l.kind == MouseDownCapture ==> (l in t.state.listeners <==> l in s.listeners)
  {
    if s.openedContextMenu then
      Transition(s.(mouseDown := true, openedContextMenu := false), [])
    else
      var released := s.listeners - OnAll(s.hosts, MouseUp) - OnAll(s.hosts, NativeDragStart)
                                  - OnAll(s.hosts, MouseMove);
      var up := s.(mouseDown := false, listeners := released);
      if !s.dragging then Transition(up, [])
      else
        var stop := DragStop(s.currentContainer, FirstHit(s.hosts, ptr.hits), ptr.x, ptr.y);
        var listeners := released - OnAll(s.hosts, ContextMenu) - OnAll(s.hosts, MouseMove);
        Transition(up.(listeners := listeners, currentContainer := None, dragging := false), [stop])
  }

  /** The context-menu handler: flag that the next release continues the drag. */
  function OnContextMenu(s: Sensor): (t: Transition)
    ensures t.emitted == [] && t.state.openedContextMenu
    ensures t.state == s.(openedContextMenu := true)
  {
    Transition(s.(openedContextMenu := true), [])
  }

  // ---------------------------------------------------------------------------
  // Dispatch

  /** A native event reaches a handler exactly when that handler is
      registered on the host the event is dispatched at; the API calls and
      the timer always run theirs. */
  function Step(dom: WfDom, s: Sensor, input: Input): (t: Transition)
    ensures t.state.containers == s.containers
    ensures t.emitted != [] ==> input.TimerFire? || input.MouseMoveAt? || input.MouseUpAt?
    ensures input.Attach? ==> t == Transition(OnAttach(s), [])
    ensures input.Detach? ==> t == Transition(OnDetach(s), [])
    ensures input.AddHost? ==> t == Transition(OnAddHost(s, input.added), [])
    ensures input.RemoveHost? ==> t == Transition(OnRemoveHost(s, input.removed), [])
    ensures input.TimerFire? ==> t == OnTimerFire(s, input.canceled)
    ensures input.MouseDownAt? && Listener(input.host, MouseDownCapture) in s.listeners ==> t == OnMouseDown(dom, s, input.press)
    ensures input.MouseMoveAt? && Listener(input.host, MouseMove) in s.listeners ==> t == OnMouseMove(s, input.pointer)
    ensures input.MouseUpAt? && Listener(input.host, MouseUp) in s.listeners ==> t == OnMouseUp(s, input.pointer)
    ensures input.ContextMenuAt? && Listener(input.host, ContextMenu) in s.listeners ==> t == OnContextMenu(s)
    ensures input.MouseDownAt? && Listener(input.host, MouseDownCapture) !in s.listeners ==> t == Transition(s, [])
    ensures input.MouseMoveAt? && Listener(input.host, MouseMove) !in s.listeners ==> t == Transition(s, [])
    ensures input.MouseUpAt? && Listener(input.host, MouseUp) !in s.listeners ==> t == Transition(s, [])
    ensures input.ContextMenuAt? && Listener(input.host, ContextMenu) !in s.listeners ==> t == Transition(s, [])
  {
    match input
    case Attach => Transition(OnAttach(s), [])
    case Detach => Transition(OnDetach(s), [])
    case AddHost(added) => Transition(OnAddHost(s, added), [])
    case RemoveHost(removed) => Transition(OnRemoveHost(s, removed), [])
    case MouseDownAt(h, p) =>
      if Listener(h, MouseDownCapture) in s.listeners then OnMouseDown(dom, s, p) else Transition(s, [])
    case TimerFire(canceled) => OnTimerFire(s, canceled)
    case MouseMoveAt(h, ptr) =>
      if Listener(h, MouseMove) in s.listeners then OnMouseMove(s, ptr) else Transition(s, [])
    case MouseUpAt(h, ptr) =>
      if Listener(h, MouseUp) in s.listeners then OnMouseUp(s, ptr) else Transition(s, [])
    case ContextMenuAt(h) =>
      if Listener(h, ContextMenu) in s.listeners then OnContextMenu(s) else Transition(s, [])
  }

  /** `Step` on a fixed document, as a transition function. */
  function Transitions(dom: WfDom): (Sensor, Input) -> Transition
  {
    (s: Sensor, i: Input) => Step(dom, s, i)
  }

  /** Feed a sequence of inputs through a transition function, collecting
      every notification in order. */
  function Replay(step: (Sensor, Input) -> Transition, s: Sensor, inputs: seq<Input>): Transition
    decreases |inputs|
  {
    if |inputs| == 0 then Transition(s, [])
    else
      var first := step(s, inputs[0]);
      var rest := Replay(step, first.state, inputs[1..]);
      Transition(rest.state, first.emitted + rest.emitted)
  }

  /** The sensor's run over a sequence of inputs. */
  function Run(dom: WfDom, s: Sensor, inputs: seq<Input>): Transition
  {
    Replay(Transitions(dom), s, inputs)
  }
}
