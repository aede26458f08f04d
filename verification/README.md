# A verified model of a collaboration server

The repository is a chat, whiteboard, screen-sharing and audio system: a load balancer, several chat
servers that share a Redis instance and a PostgreSQL database, and desktop clients. This project models its
stateful core in Dafny and proves what the parts promise together.

The program's objects are classes whose methods update their fields in the program's order. Each method is
proved against a specification function on values, and the results below are lemmas about those functions,
most of them over whole runs: arbitrary sequences of requests, clicks, deliveries, crashes or audio ticks,
in any interleaving.

| modules | what they model |
|---|---|
| `WhiteboardLog` | the numbered event log: undo, undo of an undo, visibility, cutting the log |
| `WhiteboardBoard`, `WhiteboardServer` (in WhiteboardState.dfy) | one room's board as a value, and as the object with its scans, duplicate window, tables and snapshot steps |
| `WhiteboardRuns` | runs of adds interleaved with cut, render, save, prune, dropping and reloading the board, and late saves of dropped boards |
| `WhiteboardCompaction` | what compaction and reloads do to the picture over such runs |
| `WhiteboardReplica`, `WhiteboardClient` | a client's canvas, stacks and redo map as a value, and the widgets |
| `WhiteboardShapes` | what one event, one broadcast and one sync do to a canvas, in the payload's own terms |
| `WhiteboardResend` | the broadcast of a refused resend |
| `WhiteboardStacks` | a user's undo and redo stacks against the log |
| `WhiteboardUndoRedo` | a room of clients pressing draw, undo and redo while events and broadcasts are in flight |
| `Rooms`, `RoomServer` | rooms, shares, cameras and audio owners of one server; room manager and client handlers |
| `Membership` | runs of one server's sessions: consistency and remote-control authority |
| `RoomEffects` | what each request of a connected user does to the server, the pins and later turns |
| `LoadBalancer`, `Hosting` | routing by health and pin; the cluster of servers, pins and crashes |
| `DmCode`, `ChatServer`, `DmDelivery` | codes of direct-message rooms, the client registry, delivery over the channel |
| `Pcm`, `Resampler`, `AudioMixer`, `SttWorker` | samples and rounding, the streaming resampler, jitter buffers and mixing, speech chunks |
| `Protocol` | the 40-byte packet header and reading packets off a stream cut anywhere |
| `Common` | bytes, options and ordered sets |

## Assumptions

- A handler runs without interruption by another handler of the same server. Without that, a list of active
  events computed before another draw could overwrite the newer one on the clients, and two servers could both
  find a room unpinned.
- One user id has one live session. `Membership.SecondSessionExact` says exactly what two sessions lose: after
  either disconnects, the other's room list is right if and only if it is empty.
- In the undo/redo runs each user is patient: a press comes after that user's previous event has been filed and its
  broadcast heard. Other users may have anything in flight. `WhiteboardUndoRedo.RedoExact` says what an impatient
  redo does.
- The convergence of canvases over runs is about the broadcasts of newly filed events. A refused resend is broadcast
  too, under the number the server reports; `WhiteboardResend.ResendConverges` says exactly when that is harmless.
- A room's rows are complete when the room is loaded again: every insert before a reload has committed. A room's
  whole life is covered, from its first event through any number of reloads. When a room empties while its snapshot
  loop is in the middle of a turn, or in its last second of sleep, that loop may still save its older image later;
  such late saves are part of the runs.
- Redis answers every call, and servers fail by stopping. Single hosting holds while a server counted as down
  hosts no room; `Hosting.ResolveExact` gives the exact condition for a routing step and
  `Hosting.LyingHealthSplitsRoom` the failure.
- Painting an event, PNG images, JSON text and authenticated encryption are abstract. Of the last two it is
  assumed that parsing undoes printing, printing is never empty, decryption undoes encryption under the same
  associated data, and a ciphertext is as long as its plaintext with a 16-byte tag.
- Undo events reach back to earlier numbers where a statement asks for it (`BackwardTargets`). The buttons
  only produce such events; a hand-made packet need not.
- A painter looks at an event's number, author, kind and payload, not at the id its client gave it.
- The resampler's position is an exact rational with the target rate as denominator; the program keeps a float.
- Usernames identify users and are unique in the direct-message model.

Six promises of the design do not hold for every input, and the model proves when they do:

- Compaction keeps the picture if and only if each side of the cut by itself gives its events the visibility that
  the whole log gives them (`WhiteboardLog.CutExact`, `WhiteboardCompaction.CompactionExact`), which holds when no
  undo that counts reaches across the cut in either direction. An undo added after the cut that reaches below it is
  lost (`WhiteboardCompaction.LateUndoIsLost`, `WhiteboardCompaction.LateUndoExample`), and so is one pruned with the
  cut that names a later number (`WhiteboardCompaction.ForwardUndoIsLost`, `WhiteboardCompaction.ForwardUndoExample`).
- A redo restores the last drawing hidden in every run of patient users (`WhiteboardUndoRedo.RedoRestoresLastHidden`).
  Pressed next after an undo it does so if and only if that undo's broadcast has come back to its author
  (`WhiteboardUndoRedo.RedoExact`).
- The lexicographically larger of two hyphenated names may read the wrong recipient from a direct-message code,
  although the program's comment says that hyphens parse correctly (`DmCode.LargerRecoversExactly`,
  `DmCode.HyphensCanMislead`).
- A drawing whose number an earlier undo already named is shown by clients and hidden by the server
  (`WhiteboardReplica.ReceiveConverges`, `WhiteboardReplica.ForwardUndoDiverges`).
- A refused resend is broadcast as if it were new: it moves its shape to the top of every canvas, and shows an undone
  shape again (`WhiteboardResend.ResendConverges`, `WhiteboardResend.UndoneResendDiverges`).
- Disconnecting one of two sessions of a user id takes the user out of the other's rooms
  (`Membership.SecondSessionExact`).

## Model

| member | source | states |
|---|---|---|
| WhiteboardLog.EffectiveUnique | server/features/whiteboard.py:134-147 | one and only one assignment of "counts" satisfies the rule that an undo counts unless a later counting undo targets it, so the reverse scan has a unique meaning |
| WhiteboardLog.UndoIsDeletion | server/features/whiteboard.py:204-228 | appending an undo of any logged event, drawing or undo, gives the active list of the log with that event deleted |
| WhiteboardLog.NestedUndo | server/features/whiteboard.py:134-147 | a chain of undos each undoing the one before: an even number restores the active list, an odd number deletes the first target, at every depth |
| WhiteboardLog.AppendDraw | server/features/whiteboard.py:164-183 | a new drawing changes no other event's visibility and is itself visible unless an undo already names its number |
| WhiteboardLog.BoundedQueryStable | server/features/whiteboard.py:209-211 | a log bounded by a number does not change when a later event is filed |
| WhiteboardLog.AfterEffective | server/features/whiteboard.py:272-278 | dropping every event at or below a cut changes for no undo above the cut whether it counts |
| WhiteboardLog.AfterActive | server/features/whiteboard.py:272-278 | when no counting undo reaches across the cut, the rest by itself gives each event above it the visibility of the whole log |
| WhiteboardLog.UpToActive | server/features/whiteboard.py:209-228 | when no counting undo reaches across the cut, the bounded query gives each event at or below it the visibility of the whole log |
| WhiteboardLog.CutExact | server/features/whiteboard.py:204-228 | for every log, the active list is the bounded list followed by the list of the rest if and only if on both sides of the cut every event has the visibility the whole log gives it |
| WhiteboardLog.CleanCutPaints | server/features/whiteboard.py:297-314 | painting the events up to a cut that no counting undo crosses and then the rest paints the same canvas as painting the whole log, for every paint function |
| WhiteboardServer.WhiteboardState.AddEvent | server/features/whiteboard.py:149-202 | whole new state, returned number and table rows: refusal of a known id with the number of its first retained event, otherwise the next number, sliding window, recomputed undone set, one row if the insert commits |
| WhiteboardServer.WhiteboardState.RecalculateUndoneSeqs | server/features/whiteboard.py:134-147 | the cached set is exactly the set of targets of counting undos |
| WhiteboardServer.WhiteboardState.GetActiveEvents | server/features/whiteboard.py:204-228 | the answer is the active list of the events, or of those at or below the bound |
| WhiteboardServer.WhiteboardState.LoadFromDb | server/features/whiteboard.py:66-122 | the board is rebuilt from the room's snapshot row and its later event rows |
| WhiteboardServer.WhiteboardState.RenderPng | server/features/whiteboard.py:297-314 | the canvas is the fold of the active events over the snapshot or the blank background |
| WhiteboardServer.WhiteboardState.TakeCut | server/features/whiteboard.py:250-252 | the cut is the last number, due exactly when it is above the last snapshot |
| WhiteboardServer.WhiteboardState.SaveSnapshot | server/features/whiteboard.py:259-268 | only the room's snapshot row changes, and only when the transaction commits; the result tells whether the turn goes on to prune |
| WhiteboardServer.WhiteboardState.PruneUpTo | server/features/whiteboard.py:270-278 | exactly the events above the cut remain, with the undone set recomputed and the snapshot installed |
| WhiteboardServer.ScanUndone | server/features/whiteboard.py:139-147 | the reverse loop with its skip of undone undos computes the targets of exactly the counting undos of the scanned log |
| WhiteboardServer.SelectVisible | server/features/whiteboard.py:222-228 | the forward loop lists the active events in number order |
| WhiteboardServer.FindExisting | server/features/whiteboard.py:158-162 | the number of the first retained event with the id, or the last number when there is none |
| WhiteboardServer.DropUpTo | server/features/whiteboard.py:272-274 | deleting key by key leaves exactly the events above the cut |
| WhiteboardServer.ReadRows | server/features/whiteboard.py:102-118 | the ordered row loop files every row and ends at the greatest number |
| WhiteboardRuns.RunsAreSound | server/features/whiteboard.py:66-281 | in every run, through adds, snapshot steps, reloads and late saves: retained keys are exactly the numbers above the last snapshot up to the last number, the undone set matches, a pending snapshot still shows the board up to its cut, the id window is the last thousand ids accepted since loading, and while inserts commit the rows are exactly the accepted events |
| WhiteboardRuns.ResendRefusedExactly | server/features/whiteboard.py:154-183 | in every run with reloads, an id is refused if and only if it is non-empty and among the last 1000 accepted since loading; a refusal changes nothing and reports the lowest retained number that holds the id, or the last number when its holders were pruned; accepted numbers are new and increasing |
| WhiteboardRuns.CacheAgreesWithQuery | server/features/whiteboard.py:134-228 | in every reachable state an event is listed by the query if and only if it is a retained drawing outside the cached undone set |
| WhiteboardRuns.BoundedQueryOverAdds | server/features/whiteboard.py:204-228 | a bounded query gives the same answer after any number of further adds |
| WhiteboardCompaction.CompactionKeepsPicture | server/features/whiteboard.py:250-278 | in any run, pruning a saved snapshot leaves snapshot plus retained events painting the same canvas, events added since the cut included, if no counting undo reaches across the cut |
| WhiteboardCompaction.PrunedPicture | server/features/whiteboard.py:270-314 | a pruned board paints the events visible up to the cut and then those the rest of the log shows by itself |
| WhiteboardCompaction.CompactionExact | server/features/whiteboard.py:250-278 | in any run, for a painter that remembers everything, pruning changes nothing if and only if both sides of the cut keep the visibility of the whole log |
| WhiteboardCompaction.LateUndoIsLost | server/features/whiteboard.py:272-278 | a counting undo above the cut of a drawing the snapshot shows always breaks the cut |
| WhiteboardCompaction.ForwardUndoIsLost | server/client_handler.py:764-775 | so does a counting undo at or below the cut of a drawing above it that the rest by itself shows |
| WhiteboardCompaction.LateUndoExample | server/features/whiteboard.py:250-278 | the run draw, cut, render, save, undo: the board paints a blank canvas before the prune and the drawing after it, for every painter |
| WhiteboardCompaction.ForwardUndoExample | server/features/whiteboard.py:250-278 | the run undo of the next number, cut, render, save, draw: blank before the prune, the drawing after it |
| WhiteboardCompaction.SnapshotsStayTrue | server/features/whiteboard.py:254-278 | over any number of compactions, reloads and late saves, every image, live, stored or still to be stored, is the picture of the complete history up to its cut, if each was rendered while no counting undo crossed the last snapshot |
| WhiteboardCompaction.CompactionsInvisible | server/features/whiteboard.py:254-314 | after any number of compactions and reloads the board paints the picture of the complete, never compacted history |
| WhiteboardCompaction.CleanInHistory | server/features/whiteboard.py:250-278 | with backward targets, a look at the retained events tells that no counting undo crosses the last snapshot in the complete history |
| WhiteboardRuns.ReloadStep | server/room_manager.py:112-118 | loading a room again from complete rows gives a state with all the invariants of a run, whatever snapshot is stored, and whether the dropped board's loop ends, finishes its turn or takes one more |
| WhiteboardRuns.DroppedLoopSaves | server/features/whiteboard.py:240-281 | when a room is dropped and loaded again, the old loop may still save exactly the image it has rendered, or the picture at the cut it has taken or is due to take; one past its save, or with nothing due, saves nothing |
| WhiteboardRuns.RestartRebuilds | server/features/whiteboard.py:66-130 | after any run with reloads, loading rebuilds last number, retained events up to client ids, undone set and answers whatever snapshot is stored, and exactly the live board unless a dropped board has saved late; a stop between saving and pruning comes back as pruned |
| WhiteboardLog.AnonymousResolves | server/features/whiteboard.py:111-121 | forgetting the client event ids changes neither the undone set nor the active list |
| WhiteboardReplica.ReplayShowsList | client/ui/whiteboard_widget.py:377-392 | applying a list of drawings in order to an empty canvas shows exactly its drawable events, stacked in that order |
| WhiteboardReplica.ReceiveConverges | client/ui/screen_share_widget.py:794-825 | a broadcast keeps a converged canvas converged if and only if it is an undo, draws nothing, or its number is not already the target of a counting undo |
| WhiteboardReplica.WatchConverges | client/ui/screen_share_widget.py:794-825 | a canvas that shows the server's list at one moment shows it after every later broadcast |
| WhiteboardReplica.ReplicasConverge | server/client_handler.py:775-801 | a client that watched from the start and one that joined late through a sync show the same shapes in the same order, the server's active ones, after the broadcast of every newly filed event |
| WhiteboardResend.ResendConverges | server/client_handler.py:775-801 | the broadcast of a refused resend keeps a converged canvas converged if and only if it is an undo, redraws the top shape as it is, or draws nothing under a number that shows nothing |
| WhiteboardResend.RefusedResendConverges | server/features/whiteboard.py:155-162 | the same for the number the server reports, a retained event with the id or, when all those are pruned, the last number, which belongs to another event |
| WhiteboardResend.FaithfulResendConverges | server/client_handler.py:788-801 | a resend of a retained event as it was filed keeps the canvas converged if and only if it draws nothing or nothing newer is shown and it is itself visible |
| WhiteboardResend.UndoneResendDiverges | server/client_handler.py:788-801 | resending an undone shape always leaves the canvas wrong |
| WhiteboardResend.NextUndoRepairs | client/ui/screen_share_widget.py:808-814 | whatever a canvas shows, the broadcast of the next undo filed makes it the server's picture |
| WhiteboardReplica.ForwardUndoDiverges | server/features/whiteboard.py:145-147 | an undo naming a number not yet given makes client and server disagree |
| WhiteboardClient.WhiteboardWidget.OnShapeCompleted | client/ui/whiteboard_widget.py:342-346 | a finished shape clears the redo stack and map and nothing else |
| WhiteboardClient.WhiteboardWidget.OnUndoClicked | client/ui/whiteboard_widget.py:348-354 | the top of the drawn stack moves to the undone stack and is the target sent; with none nothing happens |
| WhiteboardClient.WhiteboardWidget.OnRedoClicked | client/ui/whiteboard_widget.py:356-365 | the top of the undone stack is popped; if its undo is known that undo is the target sent and the number returns to the drawn stack |
| WhiteboardClient.WhiteboardWidget.ClearAll | client/ui/whiteboard_widget.py:369-375 | canvas, index, stacks and map become empty |
| WhiteboardClient.WhiteboardWidget.RemoveItem | client/ui/whiteboard_widget.py:503-510 | the item of a number leaves both canvas and index |
| WhiteboardClient.WhiteboardWidget.ApplyEvent | client/ui/whiteboard_widget.py:417-501 | an old item of that number goes; a drawable event, as `WhiteboardShapes.ShapeIsDrawn` says which, is stacked on top and indexed, an undo removes its target |
| WhiteboardClient.WhiteboardWidget.ReplaceEvents | client/ui/whiteboard_widget.py:377-392 | the canvas becomes the replay of the list; the stacks stay |
| WhiteboardClient.WhiteboardWidget.RecordOwnDraw | client/ui/whiteboard_widget.py:394-396 | the number is pushed on the drawn stack |
| WhiteboardClient.WhiteboardWidget.RecordOwnUndo | client/ui/whiteboard_widget.py:398-400 | the redo map names the undo for its target |
| WhiteboardClient.WhiteboardWidget.ApplySnapshot | client/ui/whiteboard_widget.py:402-415 | the decoded background image is added under its reserved key; a text that is no image changes nothing |
| WhiteboardClient.ScreenShareWidget.OnDrawBroadcast | client/ui/screen_share_widget.py:794-825 | other rooms and unnumbered broadcasts are ignored; an undo with its list replaces the canvas, anything else is applied; the author's stack or map is updated |
| WhiteboardClient.ScreenShareWidget.OnWhiteboardSync | client/ui/screen_share_widget.py:833-849 | everything is cleared, then snapshot and events are applied in order |
| WhiteboardShapes.ShapeIsDrawn | client/ui/whiteboard_widget.py:417-501 | a pen or eraser event with a point, a rectangle or oval with four numbers, and a text with characters and two coordinates each end on top of the canvas and indexed under their number |
| WhiteboardShapes.NoShapeIsDrawn | client/ui/whiteboard_widget.py:417-501 | after any other event no shape of that number is left, on the canvas or in the index |
| WhiteboardShapes.OnlyItsShapes | client/ui/whiteboard_widget.py:417-510 | an undo takes its target's shape away; no event touches the entry of any other number |
| WhiteboardShapes.OthersBroadcastsIgnored | client/ui/screen_share_widget.py:794-806 | a broadcast for another room or without a number changes nothing |
| WhiteboardShapes.BroadcastIs | client/ui/screen_share_widget.py:808-825 | an undo with a list makes the canvas the replay of that list, anything else is applied to it; the author's drawing joins the drawn stack, the author's undo the redo map, and nobody else's touches either |
| WhiteboardShapes.SyncIs | client/ui/screen_share_widget.py:833-849 | another room's sync changes nothing; this room's empties stacks and map and shows its image at the bottom and its drawings in order above it |
| WhiteboardUndoRedo.ButtonsStayInStep | client/ui/whiteboard_widget.py:342-365 | for patient users, however presses, filings and deliveries interleave, each canvas is the server's picture as of the last broadcast heard, and the stacks of a user with nothing in flight are right about the whole log: drawn is exactly the user's active drawings, each undone number is hidden by the single undo the map names, and the two form one rising list |
| WhiteboardUndoRedo.UndoHidesLatest | client/ui/whiteboard_widget.py:348-354 | whatever others have in flight, an undo's target is the latest own visible drawing, which stays visible until the undo is filed; filing hides it and nothing else; with none left nothing is sent |
| WhiteboardUndoRedo.RedoRestoresLastHidden | client/ui/whiteboard_widget.py:356-365 | for any settled user after any presses, a redo's target is the last drawing that the user's undos hid and no redo has restored since the user's last drawing, told from the server's log; it stays hidden until the redo is filed, filing shows it and nothing else, and with none left nothing is sent |
| WhiteboardUndoRedo.UndoneIsLastHidden | client/ui/whiteboard_widget.py:342-365 | in every run of patient users the undone stack is the list of drawings hidden and not yet restored, as the server's visibility at each press tells it |
| WhiteboardUndoRedo.RedoExact | client/ui/whiteboard_widget.py:356-365 | a redo pressed next after an undo restores exactly what that undo hid if and only if it is pressed after the undo's own broadcast was heard, whatever others do; pressed earlier it leaves that drawing, and nothing else of the user's, hidden |
| WhiteboardUndoRedo.EarlyRedoForgets | client/ui/whiteboard_widget.py:360-365 | a redo pressed before the first undo of a number is heard sends nothing and leaves the number on neither stack |
| WhiteboardUndoRedo.ClickCommutes | client/ui/screen_share_widget.py:794-825 | a click while only others' broadcasts are on their way has the effect it would have after them |
| WhiteboardUndoRedo.WatchOthers | client/ui/screen_share_widget.py:818-825 | any number of other users' broadcasts leave a user's stacks and map alone |
| WhiteboardStacks.HideOne | server/features/whiteboard.py:134-147 | undoing a visible drawing hides it alone, and that undo is the only one counting against it |
| WhiteboardStacks.ShowOne | server/features/whiteboard.py:134-147 | undoing the only counting undo of a drawing shows it again and changes nothing else |
| WhiteboardStacks.UselessUndo | server/features/whiteboard.py:134-147 | undoing an undo that no longer counts changes nothing |
| RoomServer.ScreenRelayState.StartShare | server/features/screen_relay.py:50-58 | a free slot is taken without controller, the sharer's repeat changes nothing, anyone else is refused |
| RoomServer.ScreenRelayState.StopShare | server/features/screen_relay.py:60-68 | only the sharer clears the share |
| RoomServer.ScreenRelayState.SetController | server/features/screen_relay.py:74-88 | only the sharer of an active share fills or clears the slot |
| RoomServer.ScreenRelayState.ClearControllerIf | server/features/screen_relay.py:90-103 | the slot is cleared exactly when that user is in it |
| RoomServer.CameraState.StartCamera | server/features/camera_state.py:31-36 | the user is active under the new name; true if and only if it was not active |
| RoomServer.CameraState.StopCamera | server/features/camera_state.py:38-41 | the user is removed; true if and only if it was active |
| RoomServer.CameraState.GetActive | server/features/camera_state.py:47-52 | exactly the active users, by ascending id |
| RoomServer.RoomManager.JoinRoom | server/room_manager.py:87-130 | redirect to a foreign pin, failure without a stored room, otherwise membership, a fresh room when new, and a pin for new regular rooms only |
| RoomServer.RoomManager.LeaveRoom | server/room_manager.py:132-159 | membership, camera and audio buffer go; an empty room is deleted and a regular one unpinned |
| RoomServer.RoomManager.GetRoomClients | server/room_manager.py:161-167 | the members of the room, none for an unknown room |
| RoomServer.Room.Remove | server/room_manager.py:139-147 | client, camera and jitter buffer of the user go |
| RoomServer.RoomManager.OpenRoom | server/room_manager.py:112-121 | a room with fresh objects of its own, pinned to this server if regular |
| RoomServer.RoomManager.RemoveClientFromAllRooms | server/room_manager.py:175-198 | the loop over all rooms removes the user everywhere, deletes exactly the rooms it empties, unpins the regular ones and returns the rooms left |
| RoomServer.ClientHandler.HandleJoinRoom | server/client_handler.py:257-281 | the room enters the client's list exactly when the join succeeds |
| RoomServer.ClientHandler.HandleLeaveRoom | server/client_handler.py:328-369 | share or grant is surrendered before the member is removed, and the list loses the room |
| RoomServer.ClientHandler.OpenDmForChat | server/client_handler.py:403-435 | a sender missing from the local members of a direct-message room joins it first |
| RoomServer.ClientHandler.HandleScreenStart | server/client_handler.py:523-535 | starting needs the room in the client's list and on the server |
| RoomServer.ClientHandler.HandleScreenStop | server/client_handler.py:537-548 | stopping touches only the sharer's own share |
| RoomServer.ClientHandler.HandleRemoteGrant | server/client_handler.py:652-683 | the handler's steps are those of the request on values, whose effect `RoomEffects.GrantTakesEffect` and `RoomEffects.RevokeTakesEffect` give: a member named in a grant gets the slot, a revoke empties it, nobody but the active sharer changes it |
| RoomServer.ClientHandler.HandleRemoteEvent | server/client_handler.py:701-720 | an event is forwarded to the sharer exactly when the sender holds the slot and the sharer is a member |
| RoomServer.ClientHandler.HandleCameraStart | server/client_handler.py:570-585 | the camera of a listed, stored room is switched on |
| RoomServer.ClientHandler.HandleCameraStop | server/client_handler.py:587-600 | the user's camera is switched off |
| RoomServer.ClientHandler.HandleAudioChunk | server/client_handler.py:726-736 | audio from a listed room registers the user as owner of a buffer |
| RoomServer.ClientHandler.Cleanup | server/client_handler.py:960-1009 | shares, grants and cameras of the listed rooms go, then the user leaves every room |
| Membership.RunsAreConsistent | server/client_handler.py:328-382 | in every run stored rooms are non-empty, each session's room list equals the rooms listing it, and sharer, controller, active cameras and audio owners are members |
| Membership.SecondSessionExact | server/client_handler.py:999-999 | with two sessions of one user id, after either one's cleanup the other's room list is right if and only if it is empty, for all rooms, pins and lists |
| Membership.SecondSessionIsEvicted | server/client_handler.py:999-999 | one instance: the newer session's room loses its member |
| Membership.OnlyGrantsFillSlot | server/client_handler.py:652-683 | a step that puts a controller in a slot is the sharer's grant to that user |
| Membership.ShareEndsByOwner | server/features/screen_relay.py:50-72 | a share ends only by its own sharer stopping, leaving or disconnecting, and is never taken over |
| Membership.SlotYieldsOnlyToItsOwners | server/features/screen_relay.py:74-103 | a granted slot changes only by an action of the sharer or by the controller leaving or disconnecting |
| Membership.SlotWasGranted | server/features/screen_relay.py:74-103 | whoever is in the slot was put there by a grant of the current sharer and the slot has not changed since |
| Membership.ForwardedOnlyUnderGrant | server/client_handler.py:701-720 | an event of c reaches h only if both are members, h shares, and the last change of the slot was h granting c, uninterrupted since |
| Membership.ControllerIsObeyed | server/client_handler.py:701-720 | it is forwarded in exactly that situation: the controller of a live share is always obeyed |
| Membership.NoControlWithoutGrant | server/client_handler.py:701-720 | in every run, once a user is not in the slot none of their events is forwarded until a grant to that user |
| Membership.ServeMovesOnly | server/room_manager.py:87-198 | a request moves nobody but its sender in or out of a room and leaves every room consistent |
| RoomEffects.JoinTakesEffect | server/room_manager.py:87-130 | a join changes the whole server exactly so: when no other server holds the room and it is stored or could be had, the user becomes a member under the session's name, of an otherwise empty room if it is new, and the room is listed; otherwise nothing changes |
| RoomEffects.JoinAnswers | server/room_manager.py:99-121 | a join is redirected exactly to the other server that a regular room is pinned to, and otherwise fails exactly when the room is neither stored nor to be had; so a new direct-message room can be opened |
| RoomEffects.ChatTakesEffect | server/client_handler.py:403-435 | chat in a direct-message room joins an absent sender just as a join does; any other chat moves nobody |
| RoomEffects.LeaveTakesEffect | server/client_handler.py:328-382 | the leaver's membership, share or grant, camera, buffer and listing are gone, the room itself if and only if they were its only member, and everything else stays |
| RoomEffects.GoodbyeTakesEffect | server/client_handler.py:960-1009 | a disconnect does the same to every room at once and ends the session |
| RoomEffects.OutsidersChangeNothing | server/client_handler.py:523-720 | leaving, sharing, granting, steering, camera and audio requests from outside the room change nothing and forward nothing |
| RoomEffects.ScreenStartTakesEffect | server/client_handler.py:523-535 | a member takes a free share, without controller, and a taken one stays as it is |
| RoomEffects.ScreenStopTakesEffect | server/client_handler.py:537-548 | the sharer's stop ends the share; another member's changes nothing |
| RoomEffects.GrantTakesEffect | server/client_handler.py:652-672 | the sharer's grant to a member puts that member in the slot under that member's name; every other grant changes nothing |
| RoomEffects.RevokeTakesEffect | server/client_handler.py:673-683 | the sharer's revoke empties the slot, whomever it names; another member's changes nothing |
| RoomEffects.MediaTakesEffect | server/client_handler.py:570-736 | a member's camera goes on and off, their audio gets a buffer, and nothing else changes |
| RoomEffects.EventChangesNothing | server/client_handler.py:701-720 | a control event changes no state |
| RoomEffects.PinsFollowRooms | server/room_manager.py:99-198 | for every request, a regular room that appears is pinned here, one that vanishes is unpinned, and no other pin changes |
| RoomEffects.RevokedUntilGranted | server/client_handler.py:652-720 | in every run, after the sharer's revoke the slot is empty and no event of any user is forwarded until the next grant to that user |
| RoomEffects.ObeyedUntilRevoked | server/client_handler.py:652-720 | in every run, after the sharer's grant to a member every event of that member reaches the sharer until the sharer acts again or the member leaves or disconnects |
| RoomEffects.ConnectTakesEffect | server/main.py:91-97 | a connecting user starts in no room and nobody else is affected |
| LoadBalancer.LeastLoadedIs | loadbalancer/health_checker.py:46-53 | none exactly when no server is up; otherwise a server that is up with the fewest connections, at equal connections the lowest cpu, and the first listed among equals |
| LoadBalancer.HealthChecker.CheckOne | loadbalancer/health_checker.py:63-82 | a reply marks the server up with its load, silence marks it down, nobody else changes |
| LoadBalancer.Router.Resolve | loadbalancer/router.py:66-88 | a live pin is followed; otherwise the least loaded server is chosen and a regular room pinned to it |
| LoadBalancer.RouteIs | loadbalancer/router.py:66-88 | where a room goes and what is pinned, in terms of the pin's server being up, for regular rooms, direct-message rooms and no room |
| Hosting.ResolveExact | loadbalancer/router.py:66-88 | routing a room breaks the pins if and only if its host is counted as down while some server is up |
| Hosting.ServePins | server/room_manager.py:87-198 | a server's request keeps its own hosted rooms pinned to it, pins no direct-message room and touches no other server's pin |
| Hosting.PinsAlwaysHold | server/room_manager.py:99-121 | in every run of routing, requests, crashes, restarts and probes with honest health, each hosted regular room is pinned to its host and no direct-message room is pinned |
| Hosting.SingleHost | server/room_manager.py:99-121 | then no second server hosts the room, the load balancer resolves to the host, joins elsewhere are redirected to it and joins there succeed |
| Hosting.LyingHealthSplitsRoom | loadbalancer/router.py:82-86 | a live host counted as down gets a second host after one routing and one join |
| Hosting.NodesStayConsistent | server/client_handler.py:960-1009 | every running server of the cluster stays consistent through routing, crashes and restarts |
| Hosting.ActionsTakeEffect | server/main.py:91-97 | a restarted server is empty and a crashed one gone, their pins staying; a session starts on its server; a probe sets load and health |
| DmCode.CodeSymmetric | client/ui/main_window.py:458-461 | both participants compute the same code |
| DmCode.CodeIs | client/ui/main_window.py:458-461 | the code is DM, the smaller name and the larger, joined by hyphens |
| DmCode.CodeExample | client/ui/main_window.py:458-461 | the codes of two given pairs |
| DmCode.SmallerRecovers | server/client_handler.py:476-490 | the lexicographically smaller name always reads back the larger |
| DmCode.LargerRecoversExactly | server/client_handler.py:476-490 | the larger name reads back the smaller if and only if the pair does not open with the larger name and a hyphen, or the larger ends with the smaller |
| DmCode.LargerRecovers | server/client_handler.py:476-490 | in particular whenever the larger does not begin with the smaller and a hyphen |
| DmCode.HyphensCanMislead | server/client_handler.py:479-487 | a pair of names for which the larger reads a wrong recipient |
| DmCode.CodeInjective | client/ui/main_window.py:458-461 | without hyphens a code determines its two names |
| ChatServer.ChatServer.RegisterClient | server/main.py:91-97 | a newer session takes the user id's place and the older handler is the one disconnected |
| ChatServer.ChatServer.UnregisterClient | server/main.py:107-109 | removal goes by user id, whichever session asks |
| ChatServer.ChatServer.GetClientByUsername | server/main.py:134-139 | some client of that name, none exactly when nobody has it |
| ChatServer.ChatServer.PushDm | server/client_handler.py:463-474 | after the room's members: nobody, one local client of the recipient's name, or a publication under that name, in exactly the source's cases |
| ChatServer.ChatServer.HandleDmMessage | server/main.py:241-259 | a channel copy is delivered exactly when it is not an own echo and the recipient is connected here |
| DmDelivery.RunSound | server/main.py:91-109 | in every run a user is online on one server, room members are online, and message numbers are fresh |
| DmDelivery.ActionsTakeEffect | server/main.py:91-109 | connecting and disconnecting move one user on one server, opening and closing a room one member of it |
| DmDelivery.CourseIsKept | server/main.py:241-259 | whatever happens while the recipient stays connected, copies received plus copies still owed is one for the recipient and no other count changes |
| DmDelivery.ExactlyOnce | server/client_handler.py:403-474 | once the channel has drained, sender, recipient and other local members have exactly one copy each and nobody else has any, wherever the recipient is connected |
| DmDelivery.CrossServerExample | server/client_handler.py:463-474 | a message to a user of another server, followed through both copies off the channel: one copy each for sender and recipient, none left |
| Resampler.PcmResampler.Process | client/features/audio_engine.py:40-78 | equal rates pass bytes through; otherwise odd bytes are cut, each output is the read of `Resampler.ReadBlends` at its position and the state keeps one sample before the next read |
| Resampler.PcmResampler.ReadAll | client/features/audio_engine.py:53-69 | the output loop reads at successive multiples of the ratio |
| Resampler.ReadAtSample | client/features/audio_engine.py:54-63 | at a stored sample's own position a read gives that sample |
| Resampler.ReadBlends | client/features/audio_engine.py:58-63 | between two samples a read is their mean weighted by the distances, to less than one and on the side of zero |
| Resampler.ReadHolds | client/features/audio_engine.py:55-57 | from the last sample on a read holds it |
| Resampler.ReadExactOnLine | client/features/audio_engine.py:58-63 | on a straight line a read whose value is whole is exact |
| Resampler.TripledExample | client/features/audio_engine.py:40-78 | the six outputs for two samples at three times the rate |
| Resampler.ReadBetween | client/features/audio_engine.py:54-63 | an interpolated value lies between any bounds on the samples |
| Resampler.ClampNeverFires | client/features/audio_engine.py:64-67 | clipping never changes an interpolated value |
| Resampler.OneCall | client/features/audio_engine.py:71-76 | a matched call of any size ends with exactly one retained sample at position 1 |
| Resampler.StreamRetains | client/features/audio_engine.py:71-76 | no drift and bounded memory over any number of matched calls of differing sizes, and exactly the asked number of samples |
| Resampler.StreamReads | client/features/audio_engine.py:53-69 | each output is the stream so far read at its global position |
| Resampler.StreamingRefinesOneShot | client/features/audio_engine.py:40-78 | for calls of any matched sizes, output k interpolates the whole stream at k times source over target, exactly when down-sampling, and when up-sampling except that the last sample of a chunk is held |
| Resampler.DownSamplingIsOneShot | client/features/audio_engine.py:40-78 | down-sampling in calls of any matched sizes gives the very samples of one call on the whole stream |
| Resampler.PacketsMatchExactly | client/features/audio_engine.py:378-379 | a device's packets match the network's if and only if its rate is a multiple of 50 |
| Resampler.FramesPerPacketIs | client/features/audio_engine.py:378-379 | a 20 ms packet has a fiftieth of the rate in frames, rounded down, and at least one |
| Pcm.DecodeEncode | client/features/audio_engine.py:49-78 | unpacking packed 16-bit samples gives them back |
| Pcm.EncodeDecode | server/features/audio_mixer.py:281-302 | packing unpacked bytes gives them back |
| Pcm.LittleEndian | server/features/audio_mixer.py:281-302 | a sample is the signed 16-bit value that equals low byte plus 256 times high byte modulo 65536 |
| Pcm.TruncTowardZero | server/features/audio_mixer.py:292-300 | the truncated quotient is the whole number nearest on the side of zero |
| Pcm.ClampIs | server/features/audio_mixer.py:292-300 | clipping gives the nearest 16-bit value |
| Pcm.FitIs | client/features/audio_engine.py:382-387 | exactly the asked length: the given bytes, then silence |
| AudioMixer.AudioMixerState.AddParticipant | server/features/audio_mixer.py:75-86 | a new user gets an empty buffer; a known one keeps theirs |
| AudioMixer.AudioMixerState.RemoveParticipant | server/features/audio_mixer.py:88-103 | buffer and name go |
| AudioMixer.AudioMixerState.FeedAudio | server/features/audio_mixer.py:105-162 | the normalised frame joins a buffer of at most ten, dropping the oldest, and is what speech recognition gets; undecodable input changes nothing |
| AudioMixer.AudioMixerState.PullFrames | server/features/audio_mixer.py:221-225 | exactly one frame, the oldest, leaves each non-empty buffer |
| AudioMixer.AudioMixerState.MixTick | server/features/audio_mixer.py:218-245 | each listener with another speaker is sent the mix of the others' frames, which `AudioMixer.MixMinus` gives sample by sample |
| AudioMixer.MixBytes | server/features/audio_mixer.py:265-302 | the accumulate, divide and clip loops compute the mix, skipping frames that cannot be unpacked |
| AudioMixer.NoFrameSkipped | server/features/audio_mixer.py:125-129 | after normalisation no frame is skipped |
| AudioMixer.ShortcutAgrees | server/features/audio_mixer.py:271-272 | the single-frame shortcut gives what the general path gives through the little-endian codec |
| AudioMixer.MixIsMean | server/features/audio_mixer.py:274-302 | each output sample is the mean of all the frames' samples truncated toward zero, unclipped |
| AudioMixer.MixBetween | server/features/audio_mixer.py:292-300 | each output sample lies between any bounds on the mixed samples |
| AudioMixer.MixOrder | server/features/audio_mixer.py:279-287 | frames in another order, well-sized or not, give the same mix |
| AudioMixer.HeardWhenOthersSpeak | server/features/audio_mixer.py:232-236 | a listener is sent a frame if and only if someone else had one buffered |
| AudioMixer.MixMinus | server/features/audio_mixer.py:231-237 | what is sent is a full frame, each sample the sum over the other speakers, each counted once, divided by their number and truncated toward zero, and inside their range |
| AudioMixer.OthersCountOnce | server/features/audio_mixer.py:231-237 | the frames mixed for a listener are as many as the other speakers and sum to the sum over those speakers |
| AudioMixer.TwoSpeakersExample | server/features/audio_mixer.py:274-293 | speakers with samples 300 and 0 are heard as 150 |
| AudioMixer.OwnVoiceUnheard | server/features/audio_mixer.py:231-237 | the listener's own buffer does not influence what they are sent |
| AudioMixer.BuffersStayBounded | server/features/audio_mixer.py:125-140 | in every run each buffer holds at most ten frames of 640 bytes |
| AudioMixer.FeedIs | server/features/audio_mixer.py:105-140 | a decoded frame, cut or padded to 640 bytes, joins the end of its own user's buffer, the oldest going only when ten are waiting; nobody else's buffer changes |
| AudioMixer.ParticipantsAre | server/features/audio_mixer.py:75-103 | registering keeps what is buffered and names a new user; leaving takes buffer and name of that user alone |
| AudioMixer.EveryFrameAccounted | server/features/audio_mixer.py:75-225 | in every run the frames a user fed are, in order, those mixed, overflowed or abandoned, followed by those buffered |
| AudioMixer.RunMixes | server/features/audio_mixer.py:218-302 | every frame sent anywhere in a run is a full frame and that mean of the other speakers of the moment |
| SttWorker.STTManager.FeedAudio | server/features/stt_worker.py:80-106 | the frame joins the speaker's buffer; the 150th empties it into one job |
| SttWorker.STTManager.RemoveSpeaker | server/features/stt_worker.py:108-112 | buffer and name go |
| SttWorker.STTManager.Stop | server/features/stt_worker.py:114-117 | afterwards frames are ignored |
| SttWorker.JobsCutTheStream | server/features/stt_worker.py:92-106 | in every run a speaker's jobs are exactly the consecutive 150-frame chunks of what that speaker fed and the buffer is the remainder |
| SttWorker.JobsAre | server/features/stt_worker.py:92-106 | the k-th job is frames 150k to 150k + 149, and there are as many jobs as whole chunks |
| SttWorker.JobsCarryTheName | server/features/stt_worker.py:80-106 | every job carries the name its speaker's first frame came with since last removed |
| SttWorker.ActiveUntilStopped | server/features/stt_worker.py:80-117 | in every run frames are taken in exactly while there is a recognizer and no stop has come |
| SttWorker.JobsAreThreeSeconds | server/features/stt_worker.py:26-28 | with frames of 640 bytes each job is 96000 bytes, three seconds of audio |
| Protocol.DecodeHeader | shared/protocol.py:75-86 | an accepted header has a known type and announces at most 16 MB |
| Protocol.Socket.RecvExact | shared/protocol.py:28-36 | however the bytes are cut, exactly n are taken, or none are left and the connection counts as closed |
| Protocol.Socket.ReadPacket | shared/protocol.py:89-104 | outcome and unread bytes depend on the stream alone, not on how it arrives |
| Protocol.Socket.ReadLoop | server/client_handler.py:195-207 | the reading loop yields the packets up to the first failure and leaves the bytes after it |
| Protocol.HeaderReadsBack | shared/protocol.py:75-86 | a written header is accepted if and only if its length is within 16 MB, and gives back its fields |
| Protocol.AcceptedHeaderIsWritten | shared/protocol.py:75-86 | every accepted header is the encoding of its fields: nothing else is accepted |
| Protocol.HeaderBytes | shared/protocol.py:47-72 | the forty bytes of a header one by one, the first twelve being what encryption authenticates |
| Protocol.KindsAre | shared/constants.py:22-83 | the packet types there are, as numbers |
| Protocol.ClearKindsAre | shared/constants.py:86-93 | with a session key everything is encrypted but the six types 1, 2 and 0xF0 to 0xF3; without one nothing is |
| Protocol.RefusedHeader | shared/protocol.py:75-86 | a header is refused for its magic, version, length and type, in that order |
| Protocol.WireOpens | shared/protocol.py:47-72 | what a packet looks like on the wire, plain or encrypted; the receiver rebuilds the sender's associated data and opens the body |
| Protocol.SealedOnTheWire | shared/protocol.py:47-59 | a sealed packet on the wire is the header with nonce and tag followed by the ciphertext |
| Protocol.SealedFromOthers | shared/protocol.py:96-104 | of a sealed packet with an ordinary nonce a receiver without a key gets only the complaint, and one with any key what decryption under that key gives, or its refusal |
| Protocol.ClearOnTheWire | shared/protocol.py:60-72 | without a key, or for the six open types, the text goes out as it is under a zero nonce and tag |
| Protocol.ClearBodyIs | shared/protocol.py:96-104 | a body in the clear is parsed whatever key the receiver has; an empty one is the empty payload, and one that is no JSON is refused |
| Protocol.ReadsBackExactly | shared/protocol.py:39-104 | a packet followed by anything reads back as itself leaving exactly what followed if and only if its body is within 16 MB, and is refused as too large otherwise |
| Protocol.CutShort | shared/protocol.py:28-36 | a packet cut at any byte is never accepted |
| Protocol.ZeroNonceIsReadAsPlain | shared/protocol.py:96-103 | an encrypted packet with an all-zero nonce has its ciphertext parsed as plain JSON |
| Protocol.StreamRoundTrip | shared/protocol.py:39-104 | a list of packets, plain and encrypted mixed, is read back as the same list consuming exactly its bytes |
| Protocol.StreamCutAnywhere | server/client_handler.py:195-207 | a connection that dies at any byte delivers exactly the complete packets and then reports the closed connection |

## Left out

- Qt widgets, painting details, fonts, image encoding, audio devices, screen capture, input injection, speech
  recognition and translation: foreign libraries; painting is an abstract function of canvas and event.
- RSA, BCrypt, tokens and the internals of AES-GCM and JSON: abstract, with the assumptions above.
- Threads, locks, timing, heartbeats and sleeping: each handler is one step, except that the snapshot loop is
  split into cut, render, save and prune.
- Snapshot and client together: a sync replaces the background and an undo broadcast drops it again, so clients
  are compared only between snapshots.
- A server error part-way through reading the tables, and rows whose payload is not valid JSON.
- Payloads whose fields have the wrong type, which make the drawing code raise; a boolean `target_seq`, which
  Python counts as an integer.
- Rows written by another server for the same room: one live board owns a room's rows.
- After a reload the window of event ids is empty, so a resend of an older event is accepted again; the statements
  about resends count the ids accepted since the room was last loaded.
- A reload after a failed insert: the lost event's number is given again, and an image may show the lost event.
- Redis failures, which the program logs and ignores, and a direct message lost because its recipient changes
  server or disconnects while a copy is on its way.
- The audio buffers of `RoomServer` are only the set of their owners; `AudioMixer` has their contents. A room's
  whiteboard object is modelled by itself in `WhiteboardServer`.
- `create_room`, friend lists, invitations, authentication, message history, key exchange, export: mostly SQL
  text and notifications that would add only easy members.
- What the broadcast of a refused resend does to its author's undo stack: the client records the number again.
- Broadcast packets other than whiteboard, direct-message, mixed-audio and remote-control ones.
- The order in which a Python dictionary is visited: frames are mixed by ascending user id, and
  `AudioMixer.MixOrder` shows that any other order gives the same bytes.
- Float rounding in the resampler: a value that is exactly an integer may come out one lower in the program.
- Resampling with unmatched packet sizes: only the bounds on each output are proved there.
- Size limits on chat, camera and audio payloads, peak and RMS diagnostics, counters, host rewriting in the load balancer, coordinate scaling: easy members.
