# A verified model of the IVI extension

The repository extends weston's IVI shell: an input module that decides which
surfaces accept which seats and who has the pointer and the keyboard, a shell
module that announces surfaces and layers to controller clients, the client
library that mirrors all of this, a module that hands out surface ids, and
example programs (a command line tool with a grammar of its own, a screenshot
encoder, a scene exporter, a redraw scheduler). This project models the parts
that keep state and proves what they promise.

| files | part |
|---|---|
| `Input`, `InputProofs`, `InputRuns`, `InputEffects`, `InputEdges`, `InputContext` | input acceptance, pointer and keyboard focus, bind and broadcast |
| `Protocol`, `System`, `Replicas`, `Replication`, `IlmControl` | the whole system of server, FIFO queues and client mirrors |
| `Notifications`, `Callbacks`, `PropertyChannel` | subscriptions on two linked lists at once, and what the client hears |
| `StringStream`, `Expression`, `Recognition`, `Registration`, `Interpreter`, `Outcomes` | the command grammar as a nondeterministic automaton |
| `Redraw` | deferred redraws and frame callbacks |
| `Bitmap` | screenshots as Windows bitmaps |
| `IdAgent`, `LayerIds` | surface ids and layer ids |
| `SceneExport`, `SceneStore` | the exported scene and its tree of strings |
| `WlList` | searched lists, shared by the rest |

How it is built. What the C code does to its lists and fields is written once
as functions on values (`Input.Step`, `System.SysStep`, `IdAgent.Step`,
`Registration.Add`, ...), and the theorems are about all runs of those
functions. Classes with the same fields, loops and early exits as the sources
(`InputController`, `IviShell`, `IlmContext`, `ExpressionInterpreter`,
`IdAgentModule`, `LayerContexts`, ...) are proved to do exactly what the
functions say. `Notifications` and `Redraw` work on the heap directly: their
methods keep a well-formedness predicate that says everything the lists and
flags promise.

What libweston, the wire and the clients do is assumed only where it is named:
events reach a client in the order they were sent; live ids, seat names and
weston surfaces are unique; a new surface is under no pointer; a pointer device
goes away only while it has no focus (all in `Input.Legal` and
`System.SysLegal`); the layout refuses to set an id that is in use; the
compositor fires each outstanding frame callback at most once. `Replicated`
also assumes that the client registers no notification for a surface id it does
not know, which makes up a list entry (`MadeUpIds` says what that does).
`Callbacks` treats each call of the library, roundtrips included, as one step;
changes that reach the server in between count as before or after it, and the
object is not destroyed in between.

Five claims one might expect are false, and the project says exactly when they
hold:

- a client keeps the names of destroyed seats in its acceptance lists
  (`StaleNameExample`, `SeatEndHeardIffNotAccepted`, `AcceptanceMirrored`,
  `ConvergesExactly`);
- the grammar depends on the order of registration when a variable competes with
  another word (`OrderFreeIff`);
- a generated layer id can be in use (`ExplicitIdBreaksIt`, `FreshForeverIff`);
- a pointer can stay forced to a surface that is gone (`ForcedToNothing`,
  `NoneForcedIff`); in the C code `forced_ptr_focus_surf` then dangles;
- a registered client need not be subscribed (`UnknownStaysSilent`,
  `SubscribedIff`).

One more depends on weston: if it takes a keyboard away without cancelling its
grab, a session can end without LEAVE (`RejectClosesSession`,
`UnpluggedStaysEntered`); if it cancels the grab first, none does
(`CancelledThenClosed`).

## Model

| member | source | states |
|---|---|---|
| `InputRuns.PointerAgreement` | ivi-input-modules/ivi-input-controller/src/ivi-input-controller.c:514-659 | in every reachable state, per seat at most one surface has the pointer bit, it is the ivi surface under `pointer->focus`, and that surface accepts the seat |
| `InputRuns.KeyboardSessions` | ivi-input-modules/ivi-input-controller/src/ivi-input-controller.c:324-483 | in every reachable state no keyboard session is out of order and the KEYBOARD bit of a record is exactly "its session has an ENTER without LEAVE" |
| `InputRuns.SessionMeaning` | ivi-input-modules/ivi-input-controller/src/ivi-input-controller.c:324-430 | what an orderly session means for the log: an event is an ENTER if and only if the session is not open there, so ENTER and LEAVE alternate and every KEY lies between them |
| `InputRuns.RejectClosesSession` | ivi-input-modules/ivi-input-controller/src/ivi-input-controller.c:1150-1187 | dropping acceptance ends the session with a LEAVE if and only if the seat still has its keyboard or the KEYBOARD bit was not set |
| `InputEdges.CancelledThenClosed` | ivi-input-modules/ivi-input-controller/src/ivi-input-controller.c:469-483 | if weston cancels the keyboard grab before it takes the keyboard away, every record dropped later ends with its session left |
| `InputEdges.UnpluggedStaysEntered` | ivi-input-modules/ivi-input-controller/src/ivi-input-controller.c:1150-1187 | a run from an empty controller in which the keyboard goes away without that, and the session of a dropped record stays entered |
| `InputEdges.NoneForcedIff` | ivi-input-modules/ivi-input-controller/src/ivi-input-controller.c:1014-1031 | no seat stays forced to a destroyed surface if and only if the surface accepted every seat that was forced to it |
| `InputEdges.ForcedOutlives` | ivi-input-modules/ivi-input-controller/src/ivi-input-controller.c:1014-1031 | seat by seat: it stays forced to the destroyed surface if and only if it was and the surface did not accept it |
| `InputEdges.RejectKeepsForced` | ivi-input-modules/ivi-input-controller/src/ivi-input-controller.c:1150-1187 | a surface that stops accepting a seat keeps the pointer of that seat forced if and only if it did not have the pointer |
| `InputEdges.ForcedToNothing` | ivi-input-modules/ivi-input-controller/src/ivi-input-controller.c:1014-1031 | a run from an empty controller after which a seat is forced to a surface that is gone |
| `InputRuns.StepKeepsInv` | ivi-input-modules/ivi-input-controller/src/ivi-input-controller.c:99-1187 | every step (seats, surfaces, focus and acceptance requests, pointer and keyboard events) keeps list well-formedness, pointer agreement and keyboard sessions together |
| `InputRuns.FlipEffect` | ivi-input-modules/ivi-input-controller/src/ivi-input-controller.c:324-373 | an ENTER or LEAVE flips the KEYBOARD bit of its record, changes no other bit of any record and keeps all invariants |
| `InputRuns.KeyPressEffect` | ivi-input-modules/ivi-input-controller/src/ivi-input-controller.c:399-430 | key events go only to open sessions, whatever records exist |
| `InputRuns.UnfocusEffect` | ivi-input-modules/ivi-input-controller/src/ivi-input-controller.c:1150-1187 | before a record is dropped its surface loses the pointer bit and all invariants hold |
| `InputRuns.AcceptanceEffect` | ivi-input-modules/ivi-input-controller/src/ivi-input-controller.c:1111-1187 | accepting and dropping keep all invariants, for known and unknown surfaces and seats |
| `InputRuns.DestroySeatEffect` | ivi-input-modules/ivi-input-controller/src/ivi-input-controller.c:933-961 | after a seat is destroyed no record mentions it, the records of other seats are as before and all invariants hold |
| `InputRuns.DestroySurfaceEffect` | ivi-input-modules/ivi-input-controller/src/ivi-input-controller.c:1014-1042 | destroying a surface, focused or forced, keeps all invariants |
| `InputProofs.SetWestFocusEffect` | ivi-input-modules/ivi-input-controller/src/ivi-input-controller.c:533-580 | moving the pointer focus to any view, none, or a surface that does not accept the seat keeps bit and focus in agreement and touches nothing else |
| `InputProofs.GrabFocusEffect` | ivi-input-modules/ivi-input-controller/src/ivi-input-controller.c:622-659 | the pointer grab, with buttons held, forced or free, keeps the agreement |
| `InputProofs.ForcePointerEffect` | ivi-input-modules/ivi-input-controller/src/ivi-input-controller.c:598-620 | forcing and releasing the pointer keeps the agreement |
| `InputProofs.ClearPointerEffect` | ivi-input-modules/ivi-input-controller/src/ivi-input-controller.c:588-596 | clearing leaves the seat without pointer focus and its old owner without the bit |
| `InputEffects.PointerFocusSpec` | ivi-input-modules/ivi-input-controller/src/ivi-input-controller.c:622-659 | where the pointer is afterwards: unchanged during a drag; otherwise on the view under it, or on the first view of the forced surface, unless that view belongs to a surface that does not accept the seat, and then nowhere; a forcing that was switched off ends and takes the pointer off the forced surface only |
| `InputEffects.MovedMeans` | ivi-input-modules/ivi-input-controller/src/ivi-input-controller.c:514-580 | the pointer bits that go with a moved pointer: the new owner has it, nobody else changes |
| `InputEffects.ButtonSpec` | ivi-input-modules/ivi-input-controller/src/ivi-input-controller.c:671-683 | a button moves the pointer only when the last one is released |
| `InputEffects.MotionSpec` | ivi-input-modules/ivi-input-controller/src/ivi-input-controller.c:661-669 | motion ends a forcing and moves no focus |
| `InputEffects.CancelSpec` | ivi-input-modules/ivi-input-controller/src/ivi-input-controller.c:588-596 | the focused pointer leaves and its forcing ends, with the event to the old owner |
| `InputEffects.FocusRequestSpec` | ivi-input-modules/ivi-input-controller/src/ivi-input-controller.c:1071-1099 | exactly the accepted seats have their pointer forced or released and their keyboard entered or left as asked; keyboard traffic and events, device and polarity included, in list order |
| `InputEffects.AcceptSpec` | ivi-input-modules/ivi-input-controller/src/ivi-input-controller.c:1111-1187 | the accepted seat gets a record and, if its pointer is nowhere, a pointer where it belongs; everything else stays; the events are those of the pointer and the acceptance |
| `InputEffects.AcceptedFirst` | ivi-input-modules/ivi-input-controller/src/ivi-input-controller.c:114-142 | a newly accepted seat is first on the list, an accepted one keeps its place |
| `InputEffects.DropSpec` | ivi-input-modules/ivi-input-controller/src/ivi-input-controller.c:1150-1187 | the dropped seat loses its record, the pointer and its forcing if the surface had the pointer, and the keyboard if it had the bit; nobody else does; the events in order |
| `InputEffects.IgnoredSpec` | ivi-input-modules/ivi-input-controller/src/ivi-input-controller.c:1111-1187 | requests about unknown seats or surfaces, and dropping what is not accepted, change nothing |
| `InputEffects.KeySpec` | ivi-input-modules/ivi-input-controller/src/ivi-input-controller.c:399-430 | a key goes to the open sessions of the seat in list order and changes nothing else |
| `InputEffects.OpenSessionsSpec` | ivi-input-modules/ivi-input-controller/src/ivi-input-controller.c:399-430 | these are the sessions of all records of the seat with the KEYBOARD bit, each once |
| `InputEffects.CancelKeyboardSpec` | ivi-input-modules/ivi-input-controller/src/ivi-input-controller.c:469-483 | all open sessions of the seat are left, once each and in list order, and no other |
| `InputEffects.SeatCreateSpec` | ivi-input-modules/ivi-input-controller/src/ivi-input-controller.c:963-1012 | a new seat has no focus and no forcing; all surfaces accept it if it is the default seat, otherwise none |
| `InputEffects.SeatDestroySpec` | ivi-input-modules/ivi-input-controller/src/ivi-input-controller.c:933-954 | the seat and its records go, all others stay as they are, one event |
| `InputEffects.SurfaceCreateSpec` | ivi-input-modules/ivi-input-controller/src/ivi-input-controller.c:1044-1063 | a new surface accepts the default seat and no other |
| `InputEffects.SurfaceDestroySpec` | ivi-input-modules/ivi-input-controller/src/ivi-input-controller.c:1033-1042 | the surface goes, exactly the seats it accepts are freed from being forced to it, nothing else changes |
| `InputContext.InputController.constructor` | ivi-input-modules/ivi-input-controller/src/ivi-input-controller.c:1364-1404 | the controller starts with no surfaces, seats or clients |
| `InputContext.InputController.Broadcast` | ivi-input-modules/ivi-input-controller/src/ivi-input-controller.c:174-195 | the loop over `resource_list` appends one event to what every bound client was sent |
| `InputContext.InputController.SetPointerFocus` | ivi-input-modules/ivi-input-controller/src/ivi-input-controller.c:514-580 | `weston_pointer_set_focus` and `weston_pointer_clear_focus` as used here assign `pointer->focus` |
| `InputContext.InputController.PtrSetWestFocus` | ivi-input-modules/ivi-input-controller/src/ivi-input-controller.c:533-580 | the in-place code does what the proved focus function says |
| `InputContext.InputController.PointerGrabFocus` | ivi-input-modules/ivi-input-controller/src/ivi-input-controller.c:622-659 | the in-place code does what the proved grab function says |
| `InputContext.InputController.PtrClearFocus` | ivi-input-modules/ivi-input-controller/src/ivi-input-controller.c:588-596 | likewise for clearing, forced surface included |
| `InputContext.InputController.PtrSetFocusSurf` | ivi-input-modules/ivi-input-controller/src/ivi-input-controller.c:598-620 | likewise for forcing and releasing |
| `InputContext.InputController.KbdMove` | ivi-input-modules/ivi-input-controller/src/ivi-input-controller.c:324-397 | enter and leave in place: event, bit and broadcast as proved |
| `InputContext.InputController.KeyboardGrabKey` | ivi-input-modules/ivi-input-controller/src/ivi-input-controller.c:399-430 | the nested loops send the key to exactly the records with the KEYBOARD bit, in list order |
| `InputContext.InputController.KeyboardGrabCancel` | ivi-input-modules/ivi-input-controller/src/ivi-input-controller.c:469-483 | every surface is left |
| `InputContext.InputController.SetupInputFocus` | ivi-input-modules/ivi-input-controller/src/ivi-input-controller.c:1071-1099 | the loop over the records handles the requested devices of every accepted seat |
| `InputContext.InputController.AddAcceptedSeat` | ivi-input-modules/ivi-input-controller/src/ivi-input-controller.c:114-142 | a fresh record at the head, or nothing when the seat is accepted already |
| `InputContext.InputController.RemoveIfSeatAccepted` | ivi-input-modules/ivi-input-controller/src/ivi-input-controller.c:144-158 | unlinks the seat's record |
| `InputContext.InputController.SetupInputAcceptance` | ivi-input-modules/ivi-input-controller/src/ivi-input-controller.c:1111-1187 | the request in place, with its broadcast |
| `InputContext.InputController.HandleSeatCreate` | ivi-input-modules/ivi-input-controller/src/ivi-input-controller.c:963-1012 | a new seat is announced, then accepted by every surface if it is the default seat |
| `InputContext.InputController.DestroySeatCtx` | ivi-input-modules/ivi-input-controller/src/ivi-input-controller.c:933-961 | seat and all its records go; only the end of the seat is broadcast |
| `InputContext.InputController.HandleSurfaceCreate` | ivi-input-modules/ivi-input-controller/src/ivi-input-controller.c:1044-1063 | a new surface accepts the default seat |
| `InputContext.InputController.HandleSurfaceDestroy` | ivi-input-modules/ivi-input-controller/src/ivi-input-controller.c:1033-1042 | the surface goes; every seat it accepted and that was forced to it is freed, other seats keep what they were forced to |
| `InputContext.InputController.BindIviInput` | ivi-input-modules/ivi-input-controller/src/ivi-input-controller.c:1204-1242 | a new client is sent all seats and all accepted records before any later broadcast |
| `Replication.Replicated` | weston-ivi-shell/src/ivi-controller.c:1395-1450 | for every interleaving of creations, destructions, binds and FIFO deliveries, a client that drains its queue has the live surfaces and layers as sequences in creation order |
| `Replication.BackgroundHidden` | weston-ivi-shell/src/ivi-controller.c:1693-1721 | in every run the background surface (compared through the 32-bit cast) is neither in the server's list nor, once its queue is drained, in any client's |
| `System.BackgroundIff` | weston-ivi-shell/src/ivi-controller.c:1693-1721 | on 32 bits the comparison through the cast is equality of the bits |
| `Replication.CreationHeardIffNew` | ivi-layermanagement-api/ilmControl/src/ilm_control_wayland_platform.c:565-593 | one event, one client: the id is put at the head of the list if and only if it is unknown, otherwise nothing happens |
| `Replication.AcceptanceMirrored` | ivi-layermanagement-api/ilmControl/src/ilm_control_wayland_platform.c:842-901 | a drained client lists, without duplicates, exactly the server's accepted seats plus the names of destroyed seats it still has; it equals the server's set if and only if there are no such names; its seat list is exact |
| `Replication.NothingStale` | ivi-layermanagement-api/ilmControl/src/ilm_control_wayland_platform.c:808-822 | on runs without seat destruction there are no stale names |
| `Replication.SeatEndHeardIffNotAccepted` | ivi-layermanagement-api/ilmControl/src/ilm_control_wayland_platform.c:808-822 | a synced client stays synced across the end of a seat if and only if no surface accepted the seat |
| `Replication.StaleNameExample` | ivi-layermanagement-api/ilmControl/src/ilm_control_wayland_platform.c:808-822 | a run of the whole system after which a client that has dispatched everything lists a seat for a surface though no such seat exists |
| `Replication.MadeUpIds` | ivi-layermanagement-api/ilmControl/src/ilm_control_wayland_platform.c:2559-2646 | a context made up for an id that does not exist yet leaves the client's list in the server's order if and only if no other surface is created before that one |
| `Replication.AcceptanceConverges` | ivi-layermanagement-api/ilmInput/src/ilm_input.c:30-111 | the requests emitted from a synced mirror, served one by one whatever weston answers in between, and heard back, leave server and client with the wanted seats (stale names aside), duplicates included, and other surfaces untouched |
| `Replication.ConvergesExactly` | ivi-layermanagement-api/ilmInput/src/ilm_input.c:30-111 | both ends hold exactly the wanted set if and only if the surface has no stale names |
| `Replication.FailsIffUnknown` | ivi-layermanagement-api/ilmInput/src/ilm_input.c:30-111 | the call fails if and only if the surface or one of the names is unknown |
| `Replication.NothingSentIff` | ivi-layermanagement-api/ilmInput/src/ilm_input.c:30-111 | no request is sent if and only if the call fails or the wanted names are as a set the listed ones |
| `Replication.SecondCall` | ivi-layermanagement-api/ilmInput/src/ilm_input.c:30-111 | the same call once more, answers heard, sends nothing if and only if all stale names of the surface are among the wanted |
| `Replication.ServerLists` | weston-ivi-shell/src/ivi-controller.c:1542-1767 | the server's lists are the creations and destructions of the run, newest first |
| `Replicas.SysStepInv` | weston-ivi-shell/src/ivi-controller.c:1395-1767 | every step of the whole system keeps "draining any client's queue agrees with the server" |
| `Replicas.StepAgrees` | ivi-input-modules/ivi-input-controller/src/ivi-input-controller.c:963-1187 | the events one input step sends are exactly what a synced mirror needs to stay synced |
| `Replicas.BindInputAgrees` | ivi-input-modules/ivi-input-controller/src/ivi-input-controller.c:1204-1242 | the replay at bind brings a mirror with the right surfaces in full agreement |
| `Replicas.ReplayFocus` | ivi-input-modules/ivi-input-controller/src/ivi-input-controller.c:1204-1242 | the replay announces the devices of every record as enabled, and nothing else |
| `Replicas.ReplaySurfacesSpec` | weston-ivi-shell/src/ivi-controller.c:1395-1450 | replaying the list backwards rebuilds it in order on an empty client |
| `System.RejectAgrees` | ivi-input-modules/ivi-input-controller/src/ivi-input-controller.c:1111-1187 | dropping acceptance, focus events included, keeps a mirror in agreement |
| `System.SeatDestroyAgrees` | ivi-input-modules/ivi-input-controller/src/ivi-input-controller.c:933-954 | the end of a seat makes stale exactly the names of the surfaces that accepted it |
| `IlmControl.IviShell.CreateSurface` | weston-ivi-shell/src/ivi-controller.c:1583-1721 | head insertion and announcement to every controller, neither for the background surface |
| `IlmControl.IviShell.RemoveSurface` | weston-ivi-shell/src/ivi-controller.c:1769-1789 | unlinking and announcement |
| `IlmControl.IviShell.CreateLayer` | weston-ivi-shell/src/ivi-controller.c:1542-1643 | head insertion and announcement to every controller |
| `IlmControl.IviShell.RemoveLayer` | weston-ivi-shell/src/ivi-controller.c:1645-1679 | unlinking and announcement if the layer is known |
| `IlmControl.IviShell.BindController` | weston-ivi-shell/src/ivi-controller.c:1395-1450 | the reverse loops send the replay that the replication theorem is about |
| `IlmControl.IlmContext.Dispatch` | ivi-layermanagement-api/ilmControl/src/ilm_control_wayland_platform.c:320-901 | the listeners change the cached lists as the mirror function says |
| `IlmControl.IlmContext.Roundtrip` | ivi-layermanagement-api/ilmControl/src/ilm_control_wayland_platform.c:2791-2809 | dispatching a queue in order |
| `IlmControl.IlmContext.GetSurfaceIDs` | ivi-layermanagement-api/ilmControl/src/ilm_control_wayland_platform.c:1700-1726 | the array is filled from the back of the list, oldest surface first |
| `IlmControl.IlmContext.GetLayerIDs` | ivi-layermanagement-api/ilmControl/src/ilm_control_wayland_platform.c:1640-1669 | likewise for layers |
| `IlmControl.IlmContext.SetInputAcceptanceOn` | ivi-layermanagement-api/ilmInput/src/ilm_input.c:30-111 | the three passes send the requests that the convergence theorem is about, or none |
| `IlmControl.IlmContext.GetInputAcceptanceOn` | ivi-layermanagement-api/ilmInput/src/ilm_input.c:113-171 | the cached names of a known surface, an error otherwise |
| `Notifications.ListInsert` | weston-ivi-shell/src/ivi-controller.c:545-597 | `wl_list_insert` on `prev`/`next` links puts the node first in the ring |
| `Notifications.ListRemove` | weston-ivi-shell/src/ivi-controller.c:98-108 | `wl_list_remove` takes exactly that node out of the ring |
| `Notifications.Shell.constructor` | weston-ivi-shell/src/ivi-controller.c:2067-2121 | an empty shell is well formed |
| `Notifications.Shell.CreateObject` | weston-ivi-shell/src/ivi-controller.c:1583-1624 | a new surface or layer has an empty notification list |
| `Notifications.Shell.Bind` | weston-ivi-shell/src/ivi-controller.c:1395-1450 | a new controller has two empty lists of its own |
| `Notifications.Shell.SyncAdd` | weston-ivi-shell/src/ivi-controller.c:545-597 | one notification is put first on the controller's and on the object's list, with no check for one that is there already; every ring stays well formed and no other list changes |
| `Notifications.Shell.SendProp` | weston-ivi-shell/src/ivi-controller.c:207-228 | an event goes once to every subscription in list order, and only to live controllers |
| `Notifications.Shell.SyncRemove` | weston-ivi-shell/src/ivi-controller.c:545-597 | the first notification of that controller leaves both of its lists; without one nothing happens; no list of another object or controller changes |
| `Notifications.Shell.ClearRing` | weston-ivi-shell/src/ivi-controller.c:98-108 | clearing a list frees exactly its notifications: each one's other link leaves its ring, nothing else moves |
| `Notifications.Shell.RemoveObject` | weston-ivi-shell/src/ivi-controller.c:1723-1736 | when a surface or layer goes exactly its notifications leave their controllers' lists, in order, and every other object keeps its list |
| `Notifications.Shell.Unbind` | weston-ivi-shell/src/ivi-controller.c:116-128 | when a client goes, every object's list loses exactly that client's notifications, so no later event reaches it, and the lists of other clients stay as they are |
| `Callbacks.RunIsDirect` | weston-ivi-shell/src/ivi-controller.c:207-228 | queue and multiplicity cannot be told apart: in every run, whatever was dispatched when and however many subscriptions there are, a client that drains its queue is where the system without queue and repetitions is |
| `Callbacks.RepetitionHeardOnce` | ivi-layermanagement-api/ilmControl/src/ilm_control_wayland_platform.c:418-547 | a value sent n > 0 times is heard once |
| `Callbacks.CallsInEveryRun` | ivi-layermanagement-api/ilmControl/src/ilm_control_wayland_platform.c:418-547 | over all runs, creations, destructions, registering and unregistering in between, read off the operations alone: a drained client's callback was called with exactly the values heard while it was set that differ from the one before, in order, and its copy is the last of them; a new context starts from zero |
| `Callbacks.CallsAreChanges` | ivi-layermanagement-api/ilmControl/src/ilm_control_wayland_platform.c:418-547 | the same from any state, and the cached property is the last value heard |
| `Callbacks.PositionsSpec` | ivi-layermanagement-api/ilmControl/src/ilm_control_wayland_platform.c:418-547 | what "differ from the one before" selects: exactly the positions whose value differs from the preceding one while a callback is set, increasing |
| `Callbacks.ExactlyOnce` | ivi-layermanagement-api/ilmControl/src/ilm_control_wayland_platform.c:418-547 | while registered and subscribed: the callback is called with every value the property takes that differs from the one before, each once and in order, with any number of further subscriptions |
| `Callbacks.ContextIff` | ivi-layermanagement-api/ilmControl/src/ilm_control_wayland_platform.c:2559-2671 | in every run a drained client has a context if and only if the object exists or one was made up since it was last destroyed, and a callback if and only if the last addition, removal or destruction is an accepted addition |
| `Callbacks.SubscribedIff` | ivi-layermanagement-api/ilmControl/src/ilm_control_wayland_platform.c:2509-2671 | in every run a client with a callback is subscribed if and only if it registered while the object existed; its subscriptions are that one and the stranded ones |
| `Callbacks.UnknownStaysSilent` | ivi-layermanagement-api/ilmControl/src/ilm_control_wayland_platform.c:2607-2646 | registering for a surface that does not exist yet succeeds, and the callback is never called for any later creation and changes |
| `Callbacks.LeftoverSubscriptions` | weston-ivi-shell/src/ivi-controller.c:545-597 | n registrations and one removal leave n - 1 subscriptions that no removal can reach |
| `PropertyChannel.PropertyContext.Listener` | ivi-layermanagement-api/ilmControl/src/ilm_control_wayland_platform.c:418-439 | cache and callback in place |
| `PropertyChannel.PropertyContext.Dispatch` | ivi-layermanagement-api/ilmControl/src/ilm_control_wayland_platform.c:565-627 | contexts come and go with the announcements, made-up ones included |
| `PropertyChannel.Channel.Create` | weston-ivi-shell/src/ivi-controller.c:1583-1624 | a new object has no subscriptions and is announced |
| `PropertyChannel.Channel.Destroy` | weston-ivi-shell/src/ivi-controller.c:1723-1736 | the object goes with its notification list and is announced |
| `PropertyChannel.Channel.Send` | weston-ivi-shell/src/ivi-controller.c:207-228 | the loop over the list queues one event per entry of the client |
| `PropertyChannel.Channel.Change` | weston-ivi-shell/src/ivi-controller.c:207-228 | a change is queued as often as the client is on the object's heap-allocated notification list |
| `PropertyChannel.Channel.SyncAdd` | weston-ivi-shell/src/ivi-controller.c:986-1041 | SYNC_ADD is one subscription more on that list, none without an object |
| `PropertyChannel.Channel.SyncRemove` | weston-ivi-shell/src/ivi-controller.c:986-1041 | SYNC_REMOVE is one subscription less if there is one |
| `PropertyChannel.Channel.Roundtrip` | ivi-layermanagement-api/ilmControl/src/ilm_control_wayland_platform.c:2791-2809 | the queue is dispatched in order |
| `PropertyChannel.Channel.Get` | ivi-layermanagement-api/ilmControl/src/ilm_control_wayland_platform.c:2673-2704 | the answer is heard after everything queued before |
| `PropertyChannel.Channel.AddNotification` | ivi-layermanagement-api/ilmControl/src/ilm_control_wayland_platform.c:2509-2646 | registering in place: known and unknown surfaces, callbacks and NULL, layers and surfaces |
| `PropertyChannel.Channel.RemoveNotification` | ivi-layermanagement-api/ilmControl/src/ilm_control_wayland_platform.c:2534-2671 | unregistering in place |
| `Expression.SkipsIsWholeGroups` | ivi-layermanagement-examples/LayerManagerControl/src/Expression.cpp:167-197 | passing words one by one with an "inside a group" flag is skipping whole `[...]` groups |
| `Expression.ClosureSpec` | ivi-layermanagement-examples/LayerManagerControl/src/Expression.cpp:167-197 | the closure lists exactly the nodes reachable by skipping whole groups, each once |
| `Expression.LowerSpec` | ivi-layermanagement-examples/LayerManagerControl/src/ExpressionInterpreter.cpp:54 | two words are lower-cased alike if and only if they differ in letter case only; no large letter is left |
| `Expression.MatchesWhat` | ivi-layermanagement-examples/LayerManagerControl/src/Expression.cpp:199-271 | a variable matches any word, `a|b` the words a and b, a plain word itself, in any letter case |
| `Expression.BracketsAside` | ivi-layermanagement-examples/LayerManagerControl/src/Expression.cpp:199-271 | group brackets do not change what a name matches |
| `Recognition.NextSpec` | ivi-layermanagement-examples/LayerManagerControl/src/Expression.cpp:199-271 | the next states are exactly the descendants that match the word with only whole groups in between, each once |
| `Recognition.Counting` | ivi-layermanagement-examples/LayerManagerControl/src/ExpressionInterpreter.cpp:79-106 | after any words, a node occurs in `currentState` as often as there are ways to consume the words that end in it |
| `Recognition.RunsSpec` | ivi-layermanagement-examples/LayerManagerControl/src/ExpressionInterpreter.cpp:79-106 | the ways are listed completely and without repetition |
| `Recognition.ExecClosureSpec` | ivi-layermanagement-examples/LayerManagerControl/src/Expression.cpp:305-370 | the executables are exactly the executable nodes that complete the command by whole groups, each once |
| `Recognition.InterpretSpec` | ivi-layermanagement-examples/LayerManagerControl/src/ExpressionInterpreter.cpp:72-185 | a command runs a node if and only if its words can be consumed so that this node alone completes them by whole groups, while every other way to consume them ends in a dead end: no callback, something below, and no group that begins |
| `Recognition.InvalidIff` | ivi-layermanagement-examples/LayerManagerControl/src/ExpressionInterpreter.cpp:72-185 | a command is invalid if and only if not exactly one way to consume its words avoids the dead ends |
| `Recognition.IncompleteIff` | ivi-layermanagement-examples/LayerManagerControl/src/ExpressionInterpreter.cpp:72-185 | a command is incomplete if and only if exactly one way does and nothing, or more than one node, completes it |
| `Recognition.PossibleIff` | ivi-layermanagement-examples/LayerManagerControl/src/ExpressionInterpreter.cpp:113-139 | the filter on the final state drops exactly the dead ends |
| `StringStream.FedLine` | ivi-layermanagement-examples/LayerManagerControl/src/ExpressionInterpreter.cpp:72-185 | a line is read as its words; a blank at its end makes the loop see the last word twice |
| `StringStream.FedBlanks` | ivi-layermanagement-examples/LayerManagerControl/src/ExpressionInterpreter.cpp:72-185 | a line without words makes the loop see the previous text once |
| `Registration.AddFuncAt` | ivi-layermanagement-examples/LayerManagerControl/src/ExpressionInterpreter.cpp:36-70 | what one registration does to every path of the grammar: it ends at the path its words are led to and changes nothing else |
| `Registration.NextChildSpec` | ivi-layermanagement-examples/LayerManagerControl/src/Expression.cpp:278-303 | a child of that name comes before any variable; the last of its kind is taken |
| `Registration.AddSorted` | ivi-layermanagement-examples/LayerManagerControl/src/Expression.cpp:161-165 | children stay strictly sorted by name at every node |
| `Registration.BuildMeans` | ivi-layermanagement-examples/LayerManagerControl/src/ExpressionInterpreter.cpp:36-70 | without competing variables the grammar has exactly the prefixes of the commands as paths and their callbacks |
| `Registration.OrderFreeIff` | ivi-layermanagement-examples/LayerManagerControl/src/ExpressionInterpreter.cpp:36-70 | the grammar is the same for every order of registration if and only if no variable competes with another word and no command has two callbacks |
| `Registration.VarBlocks` | ivi-layermanagement-examples/LayerManagerControl/src/Expression.cpp:278-303 | beside a variable child no child is ever added |
| `Registration.Extensional` | ivi-layermanagement-examples/LayerManagerControl/src/Expression.cpp:161-165 | two sorted grammars with the same paths and callbacks are the same |
| `Interpreter.AddWordsSpec` | ivi-layermanagement-examples/LayerManagerControl/src/ExpressionInterpreter.cpp:36-70 | growing the node store in place is registration on trees, with every other subtree untouched |
| `Outcomes.SameGrammarSameOutcome` | ivi-layermanagement-examples/LayerManagerControl/src/ExpressionInterpreter.cpp:72-185 | two interpreters with equal grammars run the same callback or fail alike on every input |
| `Outcomes.OrderUnobservable` | ivi-layermanagement-examples/LayerManagerControl/src/ExpressionInterpreter.cpp:36-185 | without competing variables and without commands that have two callbacks, the order of registration cannot be observed by any input |
| `Outcomes.NoRepetition` | ivi-layermanagement-examples/LayerManagerControl/src/Expression.cpp:305-370 | the duplicate check never finds a duplicate |
| `Interpreter.ExpressionInterpreter.constructor` | ivi-layermanagement-examples/LayerManagerControl/src/ExpressionInterpreter.cpp:36-70 | nothing is registered while the root is null |
| `Interpreter.ExpressionInterpreter.GetNextExpression` | ivi-layermanagement-examples/LayerManagerControl/src/Expression.cpp:278-303 | the last child of that name, or else the last variable child |
| `Interpreter.ExpressionInterpreter.AddNextExpression` | ivi-layermanagement-examples/LayerManagerControl/src/Expression.cpp:161-165 | the new node is inserted in name order |
| `Interpreter.ExpressionInterpreter.AddExpression` | ivi-layermanagement-examples/LayerManagerControl/src/ExpressionInterpreter.cpp:36-70 | the stored grammar is the one built from all commands registered so far, lower-cased |
| `Interpreter.MatchesAlternative` | ivi-layermanagement-examples/LayerManagerControl/src/Expression.cpp:199-271 | the loop over `a|b` finds a match if and only if the word is one of the alternatives |
| `Interpreter.ExpressionInterpreter.GetNextExpressionClosure` | ivi-layermanagement-examples/LayerManagerControl/src/Expression.cpp:199-271 | the loops return the next states in order, in any letter case |
| `Interpreter.ExpressionInterpreter.Recognise` | ivi-layermanagement-examples/LayerManagerControl/src/ExpressionInterpreter.cpp:72-185 | the loop over the words ends in `currentState`, or stops where no way is left |
| `Interpreter.ExpressionInterpreter.InterpretCommand` | ivi-layermanagement-examples/LayerManagerControl/src/ExpressionInterpreter.cpp:72-185 | the result for any input, blank input and failing `ilm_init` included |
| `Redraw.Display.ScheduleRedraw` | ivi-layermanagement-examples/multi-touch-viewer/src/window.c:470-480 | needed and scheduled afterwards; deferred at the head only when it was not scheduled; scheduled if and only if deferred, waiting for a frame or running, and never two of them |
| `Redraw.Display.IdleRedraw` | ivi-layermanagement-examples/multi-touch-viewer/src/window.c:404-435 | whatever windows the handler schedules, the window then waits for one frame with nothing needed: requests of its own handler are lost, requests for others are kept |
| `Redraw.Display.Drain` | ivi-layermanagement-examples/multi-touch-viewer/src/window.c:640-648 | the drain loop ends, runs each window at most once, runs tasks in the order they were deferred, and leaves every unserved request waiting for a frame |
| `Redraw.Display.FrameCallback` | ivi-layermanagement-examples/multi-touch-viewer/src/window.c:182-199 | the asserted callback is the window's own; the window is deferred again if and only if a redraw was requested since |
| `Redraw.Display.Dispatch` | ivi-layermanagement-examples/multi-touch-viewer/src/window.c:630-677 | events between drains: exactly the requested windows are marked, exactly the fired callbacks go, an Exit stops |
| `Redraw.Display.Run` | ivi-layermanagement-examples/multi-touch-viewer/src/window.c:630-677 | round by round: the tasks deferred when a round begins run in it, in the order they were deferred and each window once; every request dispatched is deferred when the next round begins or waits for a frame; rounds end after the queue in which an Exit is found, and the polled events of that round are not dispatched |
| `Redraw.Display.Round` | ivi-layermanagement-examples/multi-touch-viewer/src/window.c:630-677 | one round: tasks, queue, and without an Exit the polled events |
| `Redraw.ServedNext` | ivi-layermanagement-examples/multi-touch-viewer/src/window.c:630-677 | a redraw requested in one round runs in the next one, if its window waits for no frame by then |
| `Redraw.Display.Serve` | ivi-layermanagement-examples/multi-touch-viewer/src/window.c:630-677 | a requested redraw runs in the next drain after the frame it waits for |
| `Redraw.Display.CreateWindow` | ivi-layermanagement-examples/multi-touch-viewer/src/window.c:581-628 | a new window is idle |
| `Bitmap.StrideLeast` | ivi-layermanagement-api/ilmControl/src/bitmap.c:141-143 | the stride is the least multiple of four that holds a row, and the one the format prescribes |
| `Bitmap.PositionUnique` | ivi-layermanagement-api/ilmControl/src/bitmap.c:153-166 | every write is in bounds and distinct (row, column, channel) write distinct bytes |
| `Bitmap.FormatsSpec` | ivi-layermanagement-api/ilmControl/src/bitmap.c:111-138 | exactly four formats are supported, by their wl_shm numbers and DRM codes, and exactly those with an A have four bytes |
| `Bitmap.ChannelsAre` | ivi-layermanagement-api/ilmControl/src/bitmap.c:111-138 | red, green, blue and alpha make up the pixel in the order the name of its format gives |
| `Bitmap.WritePixel` | ivi-layermanagement-api/ilmControl/src/bitmap.c:156-165 | the channel loop stores B, G, R and A of the pixel for each format and nothing else |
| `Bitmap.FillImage` | ivi-layermanagement-api/ilmControl/src/bitmap.c:152-167 | after the nested loops every byte of the image is the one its position calls for and padding is untouched |
| `Bitmap.HeaderFields` | ivi-layermanagement-api/ilmControl/src/bitmap.c:53-74 | both headers read back field by field |
| `Bitmap.ReadsBack` | ivi-layermanagement-api/ilmControl/src/bitmap.c:76-181 | an independent reader finds every source pixel's colours at its place, top line first |
| `Bitmap.SaveAsBitmap` | ivi-layermanagement-api/ilmControl/src/bitmap.c:95-181 | a file is written if and only if the format is supported and the file opens, and it reads back as the pixels |
| `IdAgent.IdsExplained` | ivi-id-agent-modules/ivi-id-agent/src/ivi-id-agent.c:72-328 | over all runs of an accepted configuration: ids of live surfaces are distinct, and every live surface has the id it brought along, the id of a section whose application id and title, where set, are those it was requested with, a default id, or none |
| `IdAgent.DefaultIds` | ivi-id-agent-modules/ivi-id-agent/src/ivi-id-agent.c:72-328 | over all runs: default ids are consecutive from the configured first, below the configured last, none of a section, and none at all without both bounds |
| `IdAgent.ReadConfigIff` | ivi-id-agent-modules/ivi-id-agent/src/ivi-id-agent.c:245-328 | a configuration is accepted if and only if every section has an id outside the default interval and names an application or title, the ids are distinct, and there is a section or a complete default |
| `IdAgent.ByEntry` | ivi-id-agent-modules/ivi-id-agent/src/ivi-id-agent.c:128-171 | of the entries whose application id and title, where set, are those asked for and whose id is free, the first gives its id, before any default id |
| `IdAgent.ByDefault` | ivi-id-agent-modules/ivi-id-agent/src/ivi-id-agent.c:128-171 | without such an entry the next default id is given if it exists and is free, and otherwise none; only then the counter moves on |
| `IdAgent.IdsOverRuns` | ivi-id-agent-modules/ivi-id-agent/src/ivi-id-agent.c:72-243 | over all runs each entry points to exactly the live surface it gave its id to, and default ids never repeat |
| `IdAgent.ConfigIsWell` | ivi-id-agent-modules/ivi-id-agent/src/ivi-id-agent.c:214-328 | an accepted configuration has distinct ids outside the default interval |
| `IdAgent.ServedIff` | ivi-id-agent-modules/ivi-id-agent/src/ivi-id-agent.c:128-171 | a surface gets an id if and only if a fitting entry has a free one or the next default id exists and is free |
| `IdAgent.StepKeeps` | ivi-id-agent-modules/ivi-id-agent/src/ivi-id-agent.c:128-202 | every request, foreign surface and removal keeps the invariant |
| `IdAgent.FirstFree` | ivi-id-agent-modules/ivi-id-agent/src/ivi-id-agent.c:72-119 | the entry used is the first that fits and whose id is free |
| `IdAgent.IdAgentModule.CheckConfig` | ivi-id-agent-modules/ivi-id-agent/src/ivi-id-agent.c:214-243 | rejects ids of the default interval and duplicates, and only those |
| `IdAgent.IdAgentModule.Configure` | ivi-id-agent-modules/ivi-id-agent/src/ivi-id-agent.c:245-328 | reads the sections into the list, or fails |
| `IdAgent.IdAgentModule.GetIdFromConfig` | ivi-id-agent-modules/ivi-id-agent/src/ivi-id-agent.c:72-119 | the list loop with its refused ids |
| `IdAgent.IdAgentModule.GetId` | ivi-id-agent-modules/ivi-id-agent/src/ivi-id-agent.c:128-171 | the request in place; it reports success if and only if an id was given |
| `IdAgent.IdAgentModule.SurfaceEventRemove` | ivi-id-agent-modules/ivi-id-agent/src/ivi-id-agent.c:187-202 | the entry of a removed surface forgets it |
| `LayerIds.FreshOverRuns` | ivi-layermanagement-api/ilmControl/src/ilm_control_wayland_platform.c:1429-1451 | on every run with made-up ids only, with any number of removals in between and fewer creations than a 32-bit counter counts, each generated id is unused |
| `LayerIds.FreshForeverIff` | ivi-layermanagement-api/ilmControl/src/ilm_control_wayland_platform.c:1429-1451 | from any state with distinct layers: all ids generated in all futures without explicit ids, short of the counter running through, are unused if and only if no layer is beyond the counter and only the newest can be at it |
| `LayerIds.ExplicitIdBreaksIt` | ivi-layermanagement-api/ilmControl/src/ilm_control_wayland_platform.c:1429-1451 | a concrete run with one explicit id in which a used id is generated |
| `LayerIds.UsedIsRepeated` | ivi-layermanagement-api/ilmControl/src/ilm_control_wayland_platform.c:1429-1451 | a used id is generated again and again until another layer comes or goes |
| `LayerIds.CreationSpec` | ivi-layermanagement-api/ilmControl/src/ilm_control_wayland_platform.c:1787-1826 | a creation fails, and changes nothing, if and only if it asks for an id in use; otherwise its layer comes first |
| `LayerIds.AlwaysDistinct` | ivi-layermanagement-api/ilmControl/src/ilm_control_wayland_platform.c:320-346 | no run lists an id twice |
| `LayerIds.LayerContexts.GenLayerId` | ivi-layermanagement-api/ilmControl/src/ilm_control_wayland_platform.c:1429-1451 | the search returns in its second pass at the latest |
| `LayerIds.LayerContexts.CreateWithDimension` | ivi-layermanagement-api/ilmControl/src/ilm_control_wayland_platform.c:1787-1826 | explicit ids in use are refused, `INVALID_ID` asks for a generated one |
| `SceneExport.Conservation` | ivi-layermanagement-examples/LayerManagerControl/src/sceneio.cpp:42-141 | every surface is exported once per placement, a layer counting once per screen that shows it and once when none does |
| `SceneExport.NoneDropped` | ivi-layermanagement-examples/LayerManagerControl/src/sceneio.cpp:42-141 | every surface is exported, and exactly once when it is on no layer |
| `SceneExport.SceneShows` | ivi-layermanagement-examples/LayerManagerControl/src/sceneio.cpp:42-141 | screens, the layers on them and the surfaces on those come by id and in the order the service reports; then, in order, exactly the layers on no screen and the surfaces on no layer |
| `SceneExport.CaptureData` | ivi-layermanagement-examples/LayerManagerControl/src/common.cpp:153-243 | forward and inverse membership maps agree with what the service reports |
| `SceneExport.CaptureScene` | ivi-layermanagement-examples/LayerManagerControl/src/sceneio.cpp:89-141 | the loops build the scene that conservation is about |
| `SceneStore.ParsePrint` | ivi-layermanagement-examples/LayerManagerControl/include/SceneStore.h:261-273 | decimal printing and reading back is the identity on 32-bit unsigned integers |
| `SceneStore.PrintIff` | ivi-layermanagement-examples/LayerManagerControl/include/SceneStore.h:261-273 | a text is the printed form of a number if and only if it is its digits without leading zeros |
| `SceneStore.TextsShow` | ivi-layermanagement-examples/LayerManagerControl/include/SceneStore.h:516-527 | a tree has name, type and decimal digits of every property, in key order |
| `SceneStore.RoundTrip` | ivi-layermanagement-examples/LayerManagerControl/include/SceneStore.h:516-542 | an object written to a tree and read back is the same object at any nesting |
| `SceneStore.Idempotent` | ivi-layermanagement-examples/LayerManagerControl/include/SceneStore.h:516-542 | writing what was read is idempotent |
| `SceneStore.OnlyGroups` | ivi-layermanagement-examples/LayerManagerControl/include/SceneStore.h:528-542 | reading and writing a tree keeps label, number of children and order within a class, and only groups the children by class |
| `SceneStore.ToStringMapTree` | ivi-layermanagement-examples/LayerManagerControl/include/SceneStore.h:516-527 | the loops produce the tree that the round trip is about |
| `SceneStore.FromStringMapTree` | ivi-layermanagement-examples/LayerManagerControl/include/SceneStore.h:528-542 | the loops read the object that the round trip is about |

## Left out

- Touch focus and the aggregate focus of a surface over all seats: they depend on weston's own touch state; a touch request is only forwarded as an event.
- Keyboard modifier events and seat capability events: they change none of the modelled lists.
- InputController: records and seats are entries of sequences found by key, so pointers into freed records are not modelled; a seat that stays forced to a destroyed surface keeps its id, where the C code keeps a dangling pointer.
- Pointer devices unplugged while focused, shell shutdown and failing allocations: the clean-up happens inside libweston or not at all.
- Screens in the registry (`screen_created`, `screen_id`) and property values of surfaces and layers outside `Callbacks`: they follow the same announcement pattern.
- Callbacks: one property group of one object and one client at a time; the callback calls that report an object as available or removed are not in the list of calls.
- ExpressionInterpreter: `mVarValue` and `mMatchText`, that is the values a callback reads back, are not modelled; recognition does not depend on them.
- AddExpression: a blank command is not accepted, because it would make a node without a name, whose last character the source then reads.
- OrderUnobservable: says nothing about `mErrorText`.
- Redraw: EGL calls, surface creation and resizing, and destroyed windows.
- SaveAsBitmap: negative sizes and sizes beyond 32-bit arithmetic are excluded, and the contents of padding bytes are whatever the buffer held.
- PNG screenshots, shared memory buffers and the screenshot protocol.
- IdAgentModule: the parser of the configuration file; its sections are inputs.
- LayerIds: the 32-bit counter is assumed not to run through in the freshness theorem; the model itself wraps.
- SceneExport: property values of exported nodes, and service calls that fail in the middle of a capture.
- SceneStore: objects and trees are values, not heap nodes that share parts; the floating point property `opacity` (printed with six digits) and signs in property texts are not modelled.
- Text and XML writers, `replaceAll`, the occlusion geometry, the background matrix, option parsing and printing.
