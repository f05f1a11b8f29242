# draggable: the ancestor matcher and the mouse sensor, in Dafny

This project models two pieces of the draggable drag-and-drop library and
proves properties of them.

- **`closest`** (`src/shared/utils/closest/closest.js`). It finds the nearest
  ancestor-or-self of an element that satisfies a criterion. The criterion is
  a selector, a candidate list, a single element, or a predicate. At every
  step the walk first resolves SVG `<use>` indirection. It stops at a null
  parent, at the host's boundary element (`host.host || host.body`), and at
  the host node itself. When several hosts are given, they are tried in order.
- **`MouseSensor`** (`src/Draggable/Sensors/MouseSensor/MouseSensor.js`). It
  turns native mouse events on one or more hosts (documents and shadow roots)
  into drag start, move and stop notifications. It uses a start delay, a
  right-click continuation and per-host listener bookkeeping.

Files:

- `dom.dfy`: the `Option` wrapper, and the document as plain data. The
  document is a parent map, the two SVG indirection maps, the set of
  `HTMLElement`s, a selector oracle that may throw, and each node's owning
  document. A rank map makes the walk's step strictly decreasing, so every
  walk ends (`WfDom`).
- `closest.dfy` (module `Ancestor`): criterion dispatch, the walk, the
  per-host and multi-host matchers. Both are given as recursive functions
  and as the loops the source writes, with the nearest-match and ordering
  properties.
- `mouse_sensor.dfy` (module `MouseSensor`): the sensor as an immutable
  record. Each handler is a pure transition `(state, input) -> (state,
  notifications)`. `Step` dispatches an input, and `Run` replays a whole
  input trace.
- `runs.dfy` (module `Runs`): how replays of any sensor transition function
  compose.
- `gestures.dfy` (module `Gestures`): the invariant every transition keeps,
  the notification grammar every run follows, and the click, drag, cancel
  and right-click scenarios.

The environment is supplied as data:

- what `elementFromPoint` returns on each host is a map from host to node;
- the listeners' cancel decision on a start is part of the timer-fire input;
- the start timer is a pending token, consumed by a `TimerFire` input;
- a native event reaches a handler only when that handler is registered on
  the host the event is dispatched at; one input is one delivery at one host.

One would expect each gesture to emit a start, then moves, then a stop. The
code does not guarantee that:

- A context menu during a drag makes the next release a continuation, so the
  button stays down.
- A further qualifying press then schedules a new start. When that start
  fires, a second start is emitted although the first drag was never stopped
  (`Gestures.SecondStartDuringDrag`).
- A canceled start leaves `dragging` false. A later release then returns
  before it unregisters the context-menu handler, so that handler can stay
  registered with no drag running (`Gestures.StrayContextMenuReachable`).
  A right-click then sets the flag. The release of a following plain click
  is taken as a continuation, and the button is kept down. The timer then
  emits an uncanceled start although the button is up
  (`Gestures.ClickAfterStrayContextMenuStarts`).

The model follows the code. What is proved for every run is the grammar
`Gestures.Conforms`:

- a move or a stop only occurs inside a running, uncanceled drag;
- it names that drag's container;
- a stop closes the drag.

## Model

| member | source | states |
|---|---|---|
| Ancestor.Satisfies | src/shared/utils/closest/closest.js:52-75 | Per criterion, exactly: a selector matches iff `matches` returned a truthy value (a throw is a non-match); a list matches iff the node is a member; an element matches iff it is an `HTMLElement` and is the node itself; a predicate matches iff it returned a truthy value (a throw is a non-match); anything else never matches. |
| Ancestor.Walk | src/shared/utils/closest/closest.js:77-87 | The reached nodes start with the element, and each is the parent of the previous node after resolution. No node after the first is the host or its boundary element. The walk ends at a null parent or at such a stop. It terminates because the rank decreases at every step. |
| Ancestor.ClosestSingle | src/shared/utils/closest/closest.js:46-90 | A non-null per-host result satisfies the criterion. |
| Ancestor.ClosestSingleIsNearest | src/shared/utils/closest/closest.js:79-89 | The per-host result is null exactly when no tested node (the resolved walk) satisfies the criterion. Otherwise it is a tested node that satisfies it, and no earlier tested node does (nearest match). |
| Ancestor.StartAlwaysTested | src/shared/utils/closest/closest.js:79-84 | A match at the resolved start is returned, even when the start is the host or its boundary element, because the do-while tests the start before checking any stop. |
| Ancestor.SingleFoundIffOnChain | src/shared/utils/closest/closest.js:65-66 | With an element criterion the per-host walk finds something exactly when the element is an `HTMLElement` on the tested chain, and then it finds that element. |
| Ancestor.CandidatesMissIffNoneListed | src/shared/utils/closest/closest.js:63-64 | With a candidate list the per-host walk yields null exactly when no tested node is in the list. |
| Ancestor.ClosestIn | src/shared/utils/closest/closest.js:37-43 | The result is null exactly when every host yields null. Otherwise it is the result of some host, and every earlier host yielded null. |
| Ancestor.ClosestInAppend | src/shared/utils/closest/closest.js:37-43 | Hosts are tried in order. Searching `a + b` gives the result of `a` when that is non-null, and otherwise the result of `b`. |
| Ancestor.Closest | src/shared/utils/closest/closest.js:29-44 | A missing element gives null without walking. With no host list, the only host is the element's owning document. An empty host list gives null. A non-null result satisfies the criterion. |
| Ancestor.ClosestSingleLoop | src/shared/utils/closest/closest.js:77-89 | The do-while loop returns exactly what the recursive walk returns. So it returns null precisely when no tested node matches, and a returned node matches. |
| Ancestor.ClosestLoop | src/shared/utils/closest/closest.js:29-44 | The loop over the hosts returns exactly `Closest`, and a returned node matches. |
| MouseSensor.Create | src/Draggable/Sensors/MouseSensor/MouseSensor.js:24-58 | A new sensor is detached and idle: no button down, no drag, no context menu, no pending start and no listener. |
| MouseSensor.OnAttach | src/Draggable/Sensors/MouseSensor/MouseSensor.js:90-93 | Attaching sets `attached` and registers the capture `mousedown` handler on every host. Every other registration (other kinds, and `mousedown` on non-hosts) is unchanged, and no other field changes. |
| MouseSensor.OnDetach | src/Draggable/Sensors/MouseSensor/MouseSensor.js:98-101 | Detaching clears `attached` and unregisters `mousedown` from every host. Every other registration (other kinds, and `mousedown` on non-hosts) is unchanged, and no other field changes. |
| MouseSensor.OnAddHost | src/Draggable/Sensors/MouseSensor/MouseSensor.js:64-72 | The new hosts are appended. While attached, each new host has the `mousedown` handler registered, once (remove-then-add). Every other registration (any other kind on any host, and `mousedown` on other hosts) is unchanged, and when detached nothing is registered. |
| MouseSensor.OnRemoveHost | src/Draggable/Sensors/MouseSensor/MouseSensor.js:78-85 | The removed hosts leave the host list. While attached, their `mousedown` handler is unregistered, and every other registration is unchanged. |
| MouseSensor.ContainerAt | src/Draggable/Sensors/MouseSensor/MouseSensor.js:119-121 | A container is found for a host only when the host has a hit, and the container is one of the sensor's containers. |
| MouseSensor.ContainerAtIsNearest | src/Draggable/Sensors/MouseSensor/MouseSensor.js:119-121 | The container `closest(target, this.containers, [host])` finds is the nearest one: there is none exactly when the host has no hit or no node tested on the walk up from the hit (within that host) is a container, and otherwise it is the first tested node that is a container. |
| MouseSensor.FindContainer | src/Draggable/Sensors/MouseSensor/MouseSensor.js:116-133 | The lookup fails exactly when no host has a hit inside a container. Otherwise it returns a host of the list together with that host's hit as the target, and the container `closest` finds for that hit within that host. Embedded host roots are not skipped. |
| MouseSensor.FirstContainerIndexIsFirst | src/Draggable/Sensors/MouseSensor/MouseSensor.js:118-129 | `FirstContainerIndex` is the position of the first host whose hit lies inside a container: every host before it has no hit inside a container, and the host there (if any) has one. |
| MouseSensor.FindContainerIsFirst | src/Draggable/Sensors/MouseSensor/MouseSensor.js:118-129 | The lookup succeeds exactly when some host's hit lies inside a container, and then it settles on the first such host, because the loop breaks at the first. |
| MouseSensor.OnMouseDown | src/Draggable/Sensors/MouseSensor/MouseSensor.js:108-140 | A non-primary button, or Ctrl or Meta held, changes nothing (Shift and Alt are not looked at). Otherwise `mouseup` is registered on every host first. A failed lookup stops there, with no `mouseDown` and no new timer. A successful one adds the native-drag suppression, sets `mouseDown`, and replaces any pending start with exactly one new one. Nothing is emitted. |
| MouseSensor.OnTimerFire | src/Draggable/Sensors/MouseSensor/MouseSensor.js:140-168 | The pending start is used up. With the button up, nothing else changes and nothing is emitted. Otherwise exactly one start is emitted on the matched container, which becomes `currentContainer`, and `dragging` becomes "not canceled". The move and context-menu handlers are registered only for an uncanceled start. |
| MouseSensor.MoveTarget | src/Draggable/Sensors/MouseSensor/MouseSensor.js:181-195 | The target is null exactly when no host has a hit that is not some host's `.host`. Otherwise it is the hit of the last host whose hit qualifies. |
| MouseSensor.OnMouseMove | src/Draggable/Sensors/MouseSensor/MouseSensor.js:176-208 | A move never changes the state. When not dragging, or when there is no acceptable hit, it emits nothing. Otherwise it emits one move carrying `currentContainer` and the target. |
| MouseSensor.FirstHit | src/Draggable/Sensors/MouseSensor/MouseSensor.js:231-237 | The stop target is null exactly when no host has a hit. Otherwise it is the hit of the first host with one. |
| MouseSensor.OnMouseUp | src/Draggable/Sensors/MouseSensor/MouseSensor.js:215-254 | After a context menu, the release only clears the flag, leaves the button down and emits nothing. Otherwise the button is up and `mouseup`, native-drag and `mousemove` are unregistered from every host, while registrations on non-hosts and the `mousedown` ones are unchanged. A release without a drag emits nothing and changes nothing else. A running drag emits one stop on `currentContainer`, with the first hit as target, and resets `dragging`, `currentContainer` and its context-menu handler; no other field changes. |
| MouseSensor.OnContextMenu | src/Draggable/Sensors/MouseSensor/MouseSensor.js:261-264 | The context-menu handler only sets `openedContextMenu`, and it emits nothing. |
| MouseSensor.Step | src/Draggable/Sensors/MouseSensor/MouseSensor.js:64-264 | `attach`, `detach`, `addHost`, `removeHost` and the timer always run their handler. A native event runs its handler exactly when that handler is registered on the host it is delivered at, and is otherwise a no-op. Only a timer fire, a move or a release can emit. No input changes the containers. |
| Gestures.CreateInv | src/Draggable/Sensors/MouseSensor/MouseSensor.js:24-58 | A new sensor satisfies the invariant. |
| Gestures.StepConforms | src/Draggable/Sensors/MouseSensor/MouseSensor.js:64-264 | Every input keeps the invariant. The invariant says: `mousedown` is registered exactly on the current hosts while attached; a drag has a container; remembered containers are sensor containers. What one input emits follows the notification grammar. |
| Gestures.RunConforms | src/Draggable/Sensors/MouseSensor/MouseSensor.js:64-264 | Over any input trace, the invariant holds throughout and the whole log follows the grammar. Moves and stops only occur inside an uncanceled started drag, naming its container, and a stop closes it. |
| Gestures.MoveOrStopFollowsStart | src/Draggable/Sensors/MouseSensor/MouseSensor.js:157-162 | In a log read from an idle state, every move and stop is preceded by an uncanceled start. |
| Gestures.IdleWithoutTimerIsSilent | src/Draggable/Sensors/MouseSensor/MouseSensor.js:140-157 | From a state with no drag, inputs without a timer fire emit nothing and start no drag. |
| Gestures.CanceledStartIsSilent | src/Draggable/Sensors/MouseSensor/MouseSensor.js:157-167 | A canceled start emits one start and no drag, and nothing follows it until another timer fires. |
| Gestures.PressEffect | src/Draggable/Sensors/MouseSensor/MouseSensor.js:113-140 | A qualifying press delivered where `mousedown` listens sets `mouseDown` and schedules a start with the found target and container. `mouseup` is then registered on every host, and nothing is emitted. |
| Gestures.ReleaseIdle | src/Draggable/Sensors/MouseSensor/MouseSensor.js:215-229 | A release with no drag and no context menu emits nothing and leaves the button up. |
| Gestures.TimerAfterRelease | src/Draggable/Sensors/MouseSensor/MouseSensor.js:140-143 | A timer firing after the release emits nothing and starts no drag. |
| Gestures.TimerStartsDrag | src/Draggable/Sensors/MouseSensor/MouseSensor.js:149-167 | An uncanceled timer fire with the button down emits the pending start, starts the drag on its container and registers `mousemove`. |
| Gestures.MoveDuringDrag | src/Draggable/Sensors/MouseSensor/MouseSensor.js:176-207 | A move during a drag, over an acceptable hit, emits exactly one move and changes nothing. |
| Gestures.ReleaseStopsDrag | src/Draggable/Sensors/MouseSensor/MouseSensor.js:215-253 | An ordinary release during a drag emits exactly one stop and ends the drag. |
| Gestures.ClickEmitsNothing | src/Draggable/Sensors/MouseSensor/MouseSensor.js:108-229 | From a state with no drag and the context-menu flag clear, press, release before the delay, then the timer fires: zero notifications, and the sensor ends idle. The flag must be clear: after a right-click on a stray context-menu handler the same click starts a drag (`Gestures.ClickAfterStrayContextMenuStarts`). |
| Gestures.DragEmitsStartMoveStop | src/Draggable/Sensors/MouseSensor/MouseSensor.js:108-254 | Press, the timer fires uncanceled, move over a point where the receiving host has an acceptable hit, release: exactly one start, one move and one stop, all on the found container. |
| Gestures.PendingDrag | src/Draggable/Sensors/MouseSensor/MouseSensor.js:140-254 | From a pressed button with a start pending, the timer, a move and a release emit start, move and stop on the pending container. |
| Gestures.RightClickContinuesDrag | src/Draggable/Sensors/MouseSensor/MouseSensor.js:215-221 | A context menu during a drag followed by a release emits nothing. The drag keeps running, the button stays down, the listeners are unchanged and the flag is cleared. A second release then emits exactly one stop. |
| Gestures.PressAndStart | src/Draggable/Sensors/MouseSensor/MouseSensor.js:137-167 | A qualifying press followed by an uncanceled timer fire emits one start on the found container and begins dragging. It keeps every registration and the context-menu flag, and registers `mouseup` and `contextmenu` on the receiving host. |
| Gestures.SecondStartDuringDrag | src/Draggable/Sensors/MouseSensor/MouseSensor.js:137-167 | During a drag, a context menu, its continuing release, a new press and its timer emit a second start without any stop. So a gesture's log is not always start, moves, stop. |
| Gestures.CanceledPressRelease | src/Draggable/Sensors/MouseSensor/MouseSensor.js:108-229 | A qualifying press whose start a listener cancels, then its release: exactly one canceled start; afterwards no drag, no button down, no pending start and no flag. A registered `contextmenu` handler stays, because the release returns before unregistering it. |
| Gestures.CanceledRestartKeepsContextMenu | src/Draggable/Sensors/MouseSensor/MouseSensor.js:157-166 | During a drag, a right-click, its continuing release, a new press whose start is canceled, and a release emit one canceled start and leave the sensor idle with the context-menu handler still registered. |
| Gestures.StrayContextMenuReachable | src/Draggable/Sensors/MouseSensor/MouseSensor.js:90-263 | From a new sensor, attach, a drag, a right-click and its release, then a canceled restart and its release reach an idle state (no drag, button up, no pending start, flag clear) in which the context-menu handler is still registered. |
| Gestures.ClickAfterStrayContextMenuStarts | src/Draggable/Sensors/MouseSensor/MouseSensor.js:216-263 | With no drag running but the context-menu handler registered, a right-click and then a plain click emit an uncanceled start on the found container. The drag then runs and the button counts as down. |

## Left out

- The real DOM is left out. `parentNode`, `correspondingUseElement`,
  `correspondingElement`, `Element.matches`, `instanceof` and
  `elementFromPoint` are replaced by plain data: maps, a selector oracle with
  a throwing outcome, and a per-host hit map. CSS selector semantics are not
  modelled.
- `setTimeout`, `clearTimeout` and the delay are left out. The timer is a
  pending token plus a `TimerFire` input, and there is no wall-clock time.
- The `Sensor` base class is not part of this model. `addHost` is taken to
  append the hosts, and `removeHost` to drop every occurrence.
  `addHostsEventListener` and `removeHostsEventListener` are taken to act on
  every current host. `trigger` appends to the notification log.
- `DragStartSensorEvent` and the other event classes are left out. The
  notification carries the coordinates, target and container;
  `canceled()` is an input.
- The original native event is not carried in the notifications.
- Event propagation through several hosts is not modelled as one event.
  Mouse events are composed, so a physical event inside a nested shadow-root
  host reaches the handler once on every host on its path. The model
  expresses that as one input per host delivery, each running the handler
  once, for example one move notification per delivery. The invariant and
  the grammar (`Gestures.RunConforms`) hold for any such sequence. The
  scenario lemmas (`Gestures.ClickEmitsNothing`,
  `Gestures.DragEmitsStartMoveStop`, `Gestures.RightClickContinuesDrag` and
  the others) describe a single delivery of each event.
- `preventDefault` side effects are left out: native drag suppression and
  the context-menu suppression. Only their listener bookkeeping and the
  `openedContextMenu` flag are modelled.
- The commented-out `matchFunction` vendor-prefix code at the top of
  `closest.js` is left out, because it is dead code.
- `MouseSensor.Run` replays a whole trace against one document snapshot, so
  the tree `closest` walks at every press is the same throughout a run. In
  the program each press walks the live document, which can change between
  presses (a drag usually moves elements). `Gestures.StepConforms` holds for
  every step with any document, so `Gestures.RunConforms` would equally hold
  with a fresh snapshot at each step; the scenario lemmas assume one
  snapshot.
- Pointer coordinates (`clientX`, `clientY`) are doubles in the program and
  integers in the model. They are only passed on into the notifications, so
  no behaviour depends on them.
- The `options.delay` value is not modelled, because the model has no time.
- The timer callback's `!target` early return is not modelled. A start is
  only scheduled with a non-null target, so that return cannot be taken.
- The sensor's containers are always a list of candidate nodes. The base
  class's normalisation of a single container or a `NodeList` is not part of
  this model.
