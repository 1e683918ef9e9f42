# Show-management front end: the client-side rules of three views

This project is a Dafny model of the three views of the show-management front end that keep
real rules in the browser. The backend owns shows, users and photos.

- **AssignUsers** (`assign_users.dfy`). The user selects up to four waiting users and one show, then assigns
  every selected user to that show. A click on a selected user deselects it. Once four users are
  selected, a click on a new user is refused. A show that already reports its clients is refused
  when those clients plus the pending selection would exceed four, and the error names the
  remaining capacity. The assign step needs a non-empty selection and a chosen show. It sends
  one assignment request per selected user. On success it clears the selection and reloads the
  data.
- **EditShow** (`edit_show.dfy`). The user picks a show by id, removes a client from it, or
  deletes it. The local show list changes only after the backend call has succeeded. The change
  is a keyed update or a keyed delete that leaves every other show and the list's order as they
  were.
- **CapturePhoto** (`capture_photo.dfy`). This view runs one capture session: a session id the
  backend assigns on the first successful capture, a gallery of photos fetched from the backend,
  an attempt counter that switches the capture buttons off at three, and one selected photo.
  A successful approval resets all four to their initial values.

`records.dfy` holds the shared records and the keyed-list operations the views use: `find` and
`filter` by `_id`.

The components are React function components. Their state fields become the fields of one Dafny
class per view, and their handlers become methods. The pure pieces become functions with
lemmas: the selection updater, the capacity test, the keyed list transforms and the fan-out of
assignment requests. A backend call becomes a `Reply` parameter, either the value it resolved to
or the message of the error it threw. Every handler returns the sequence of `Call`s it sent, so
"makes no call" is stated as `calls == []`. JavaScript truthiness is written out. A missing
`clients` field is `None`, while an empty list counts as present. An id counts as unset when it
is absent or empty (`IsSet`).

The model makes four behaviours of the code explicit:

- **The capacity check runs only when a show is clicked.** Users can still be selected after the
  show is chosen, and the assign step does not repeat the check. `CapacityNotRecheckedAtAssign`
  builds a concrete case: a show with three clients accepts a selection of one user, and the
  selection then grows to four, so the assign step sends four requests for that show.
- **Removal can fail locally.** If a show with the selected id has no `clients` field, filtering
  it throws after the backend removal has succeeded. The handler then reports "Failed to remove
  user" and changes nothing locally. `RemoveClient` returns `None` in this case.
- **The first capture does not fetch photos.** A capture handler calls the `fetchPhotos` closure
  of the render it came from, so that closure still holds the session id from before the
  capture. On the first capture this id is unset and the closure fetches nothing. The first
  photos come from the poll that starts when the session id is set. `HandleCapture` models this.
- **The attempt guard is in the rendering.** `handleCapture` itself does not look at the
  counter. Capture is bounded only because the buttons are rendered while `currentAttempt < 3`,
  and `HandleCapture` requires `CaptureEnabled()` for this reason.

## Model

| member | source | states |
|---|---|---|
| Records.MessageOr | src/components/AssignUsers.jsx:85 | `err.message \|\| fallback`: the result is the message when it is non-empty and otherwise the fallback, so the banner is never blank when the fallback is not |
| Records.FirstIndex | src/components/EditShow.jsx:17 | the result is the position of the first entry with the key, or the length when none has it: every earlier entry has another key |
| Records.Find | src/components/EditShow.jsx:17 | `find` by key: None exactly when no entry has the key; otherwise an entry with the key such that no earlier entry has it |
| Records.Without | src/components/AssignUsers.jsx:42 | `filter` by key: an entry is kept exactly when it was in the list and has another key; never longer than the input |
| Records.WithoutConcat | src/components/EditShow.jsx:68 | filtering a concatenation is concatenating the filtered parts, so the kept entries keep their relative order |
| Records.WithoutAbsent | src/components/EditShow.jsx:34 | filtering out a key that no entry has returns the list unchanged |
| Records.WithoutUnique | src/components/AssignUsers.jsx:41-43 | with unique keys, filtering out entry i's key removes exactly entry i and keeps the rest in order |
| Records.WithoutIdempotent | src/components/EditShow.jsx:34 | filtering twice by the same key equals filtering once |
| Records.WithoutKeepsUnique | src/components/AssignUsers.jsx:42 | filtering keeps the keys unique |
| AssignUsersView.Toggle | src/components/AssignUsers.jsx:40-49 | the updater only removes entries or adds the clicked user, never drops a user with another id, and never grows a selection of at most 4 past 4; its three branches are stated exactly by ToggleDeselects, ToggleSelects and ToggleRefusesWhenFull |
| AssignUsersView.ToggleDeselects | src/components/AssignUsers.jsx:41-43 | clicking a user whose `_id` is selected removes exactly that entry, and the others keep their order |
| AssignUsersView.ToggleSelects | src/components/AssignUsers.jsx:44-48 | clicking an unselected user while fewer than 4 are selected appends it at the end, and earlier entries are unchanged |
| AssignUsersView.ToggleRefusesWhenFull | src/components/AssignUsers.jsx:44-47 | clicking an unselected user while 4 are selected leaves the selection unchanged |
| AssignUsersView.ToggleKeepsSelectionOk | src/components/AssignUsers.jsx:39-49 | one click keeps the selection at no more than 4 users with distinct `_id`s |
| AssignUsersView.ToggleAllKeepsSelectionOk | src/components/AssignUsers.jsx:39-49 | any sequence of clicks keeps the selection at no more than 4 users with distinct `_id`s |
| AssignUsersView.SelectionFromEmptyOk | src/components/AssignUsers.jsx:8-49 | starting from the initial empty selection, no sequence of clicks reaches more than 4 users or two entries with the same `_id` |
| AssignUsersView.ShowRejects | src/components/AssignUsers.jsx:54 | a show without a `clients` field is never refused; a show with clients is refused exactly when the pending selection is larger than `4 - clients.length`, the remaining capacity the error names |
| AssignUsersView.AssignCalls | src/components/AssignUsers.jsx:72-76 | exactly one assignment request per selected user, in selection order, each for that user's id and the chosen show |
| AssignUsersView.CapacityNotRecheckedAtAssign | src/components/AssignUsers.jsx:54-76 | for any show with 3 clients and any 4 users with distinct ids: the show accepts the selection of the first user, three more clicks grow the selection to all 4 users (which the show would now refuse), and the assign step sends 4 requests for it, past the capacity |
| AssignUsersView.AssignUsers.constructor | src/components/AssignUsers.jsx:6-16 | the view starts with empty lists, no selection, no chosen show and no banners |
| AssignUsersView.AssignUsers.FetchInitialData | src/components/AssignUsers.jsx:23-37 | requests users and shows; on success replaces both lists, on failure keeps them and sets "Failed to load data" |
| AssignUsersView.AssignUsers.HandleUserSelection | src/components/AssignUsers.jsx:39-51 | the new selection is the toggle of the old one; the selection invariant (at most 4, distinct ids) is kept; a click that is not refused leaves no error |
| AssignUsersView.AssignUsers.HandleShowSelection | src/components/AssignUsers.jsx:53-62 | a show whose listed clients plus the pending selection exceed 4 leaves the chosen show unchanged and reports `4 - clients.length` as the remaining capacity; any other show, including one without `clients`, becomes the chosen show and clears the error |
| AssignUsersView.AssignUsers.HandleAssign | src/components/AssignUsers.jsx:64-89 | with no selection or no chosen show: no request and an error. Otherwise one request per selected user; on failure nothing else changes and the error is the server's message or the fallback; on success the selection is empty, no show is chosen, the success names the count and the data is reloaded |
| EditShowView.RemoveClient | src/components/EditShow.jsx:30-38 | every show with the selected id loses the clients with the user id and keeps its other fields; every other show is unchanged; length and order are kept; the transform fails exactly when a show with that id has no `clients` field |
| EditShowView.RemoveClientKeepsIds | src/components/EditShow.jsx:41-43 | a lookup by id finds the same position in the updated list as in the old one |
| EditShowView.RemoveClientUpdatesSelected | src/components/EditShow.jsx:30-43 | the show found under the selected id after removal has no client with the user id, keeps its other clients in order and is otherwise the show it was |
| EditShowView.RemoveClientIdempotent | src/components/EditShow.jsx:34 | removing the same user a second time gives the same list as removing once |
| EditShowView.DeleteKeepsOthers | src/components/EditShow.jsx:68 | with unique ids, deleting a show's id removes exactly that entry and keeps the others in order |
| EditShowView.EditShow.constructor | src/components/EditShow.jsx:6-13 | the view starts with no shows, no selection and no banners |
| EditShowView.EditShow.FetchInitialData | src/components/EditShow.jsx:84-96 | requests the shows; on success replaces the list and clears the error, on failure keeps it and sets "Failed to load shows" |
| EditShowView.EditShow.HandleShowSelect | src/components/EditShow.jsx:16-20 | the selection becomes the first show with the id, or none when no show has it, and the error is cleared |
| EditShowView.EditShow.HandleRemoveUser | src/components/EditShow.jsx:22-51 | with no selected show: no request and no change. Otherwise one removal request; on a failed call or a show without `clients` nothing changes but the error; on success the list is the keyed update and the selection is the updated entry found in the new list |
| EditShowView.EditShow.HandleDeleteShow | src/components/EditShow.jsx:53-77 | with no selected show or no confirmation: no request and no change. Otherwise one delete request; on failure nothing changes but the error; on success every show with the id is gone, the others are kept in order and the selection is cleared |
| CapturePhotoView.IsSet | src/components/CapturePhoto.jsx:18 | the truthiness test of a nullable id (also at lines 47 and 65): exactly null and the empty string count as unset |
| CapturePhotoView.CaptureSession.CaptureEnabled | src/components/CapturePhoto.jsx:122 | the render guard of both capture buttons (also at line 144): a button is shown exactly when one more attempt stays within the limit of 3 |
| CapturePhotoView.CaptureSession.constructor | src/components/CapturePhoto.jsx:7-14 | the session starts with no session id, no photos, 0 attempts and no selected photo, and capture is enabled |
| CapturePhotoView.CaptureSession.FetchPhotos | src/components/CapturePhoto.jsx:17-30 | without a session id: no request and no change; otherwise the response's `photos` replace the list wholesale (empty when the field is missing), or the error is set and the list kept |
| CapturePhotoView.CaptureSession.HandleCapture | src/components/CapturePhoto.jsx:41-58 | a failed capture keeps counter, session id and photos and sets the error; a successful one adds exactly 1 to the counter, adopts the returned session id only when none was set, and fetches photos only with a session id set beforehand; the counter stays at most 3 |
| CapturePhotoView.CaptureSession.HandleSelectPhoto | src/components/CapturePhoto.jsx:60-62 | the selected photo id becomes exactly the clicked one, replacing any previous one |
| CapturePhotoView.CaptureSession.HandleApprove | src/components/CapturePhoto.jsx:64-82 | without both a selected photo and a session id: no request and no change; a successful approval resets session id, photos, counter and selection to their initial values; a failed one changes only the error |
| CapturePhotoView.CaptureThreeThenApprove | src/components/CapturePhoto.jsx:120-155 | after three successful captures the capture buttons are gone and the counter is 3; after approving a selected photo the session is back in its initial state |

## Left out

- `src/services/api.js` is not part of this model beyond its call names. Each request is an abstract fallible call: a `Reply` parameter of the handler that awaits it. HTTP, JSON decoding and the API base URL are not modelled.
- `src/services/api.js` as given defines only `capturePhoto`, `fetchCapturedPhotos`, `approvePhoto` and `assignUserToShow`. The views also import `fetchUsers`, `fetchShows`, `removeUserFromShow` and `deleteShow`. These are modelled as fallible calls like the others.
- Timing: the 3-second `setInterval` polling and its teardown are left out. `FetchPhotos` is one tick of the poll. The `useEffect` runs such a tick when the session id changes; that tick is a call the caller makes.
- Concurrency: overlapping requests and late responses are left out. One such case is a poll answered after an approval. Each handler runs to completion before the next one starts.
- `AssignUsersView.AssignUsers.HandleAssign`: the assignment requests run concurrently under `Promise.all`, and some may have succeeded when the batch fails. The model treats the batch as one outcome and does not model partial assignment.
- `AssignUsersView.AssignUsers.HandleUserSelection`: does not state `error` after a refused click, that is a click on a new user while 4 are selected. Such a click sets "Maximum 4 users can be selected" inside the state updater and then sets `null` right after the updater. Which value is left depends on when React runs the updater.
- Loading and spinner flags (`loading`, `isLoading`), `console.error`, date formatting and all rendering are left out. Exception: the rendering guard `currentAttempt < 3` is kept as `CaptureSession.CaptureEnabled`, which `HandleCapture` requires.
- `window.confirm` in the delete handler is the user's answer, passed in as the `confirmed` parameter.
- `showId` and `userIds` in the capture view are never assigned by the view. They are kept as fields and sent unchanged with every capture.
- `CreateShow.jsx`, `NavBar.jsx`, `Home.jsx`, `App.js` and `ShowPlayback.jsx` are presentation, routing or a stub, and are not part of this model. The play/standby sequencing, language validation and show creation do not appear in the code and are not modelled.
