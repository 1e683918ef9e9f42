/** The edit-show view: pick a show from the loaded list, remove a client from it or delete
    it. The local list changes only after the backend call has succeeded. */
module EditShowView {
  import opened Records

  const RemoveFailedMessage := "Failed to remove user"
  const UserRemovedMessage := "User removed successfully"
  const DeleteFailedMessage := "Failed to delete show"
  const ShowDeletedMessage := "Show deleted successfully"
  const LoadFailedMessage := "Failed to load shows"

  /** The show list after removing client `userId` from every show whose id is `showId`.
      None when such a show has no `clients` field: filtering it throws, and the handler
      reports the failure without touching the list. */
  function RemoveClient(shows: seq<Show>, showId: string, userId: string): (r: Option<seq<Show>>)
    ensures r.None? <==> exists i :: 0 <= i < |shows| && shows[i].id == showId && shows[i].clients.None?
    ensures r.Some? ==> |r.value| == |shows|
    ensures r.Some? ==> forall i :: 0 <= i < |shows| && shows[i].id != showId ==> r.value[i] == shows[i]
    ensures r.Some? ==> forall i :: 0 <= i < |shows| && shows[i].id == showId ==>
              shows[i].clients.Some? &&
              r.value[i] == shows[i].(clients := Some(Without(shows[i].clients.value, UserKey, userId)))
    decreases |shows|
  {
    if shows == [] then Some([])
    else
      var rest := RemoveClient(shows[1..], showId, userId);
      var head := shows[0];
      if head.id != showId then
        (if rest.None? then None else Some([head] + rest.value))
      else if head.clients.None? || rest.None? then None
      else Some([head.(clients := Some(Without(head.clients.value, UserKey, userId)))] + rest.value)
  }

  /** Every entry keeps its id, so looking an id up finds the same position before and after. */
  lemma RemoveClientKeepsIds(shows: seq<Show>, showId: string, userId: string, k: string)
    requires RemoveClient(shows, showId, userId).Some?
    ensures FirstIndex(RemoveClient(shows, showId, userId).value, ShowKey, k) == FirstIndex(shows, ShowKey, k)
  {
  }

  /** After a removal, the show found under the selected id has lost every client with that
      user id, keeps its other clients in their order, and is otherwise the show it was. */
  lemma RemoveClientUpdatesSelected(shows: seq<Show>, showId: string, userId: string)
    requires RemoveClient(shows, showId, userId).Some?
    ensures var before := Find(shows, ShowKey, showId);
            var after := Find(RemoveClient(shows, showId, userId).value, ShowKey, showId);
            after.Some? == before.Some? &&
            (after.Some? ==>
               before.value.clients.Some? && after.value.clients.Some? &&
               after.value.clients.value == Without(before.value.clients.value, UserKey, userId) &&
               (forall c :: c in after.value.clients.value ==> c.id != userId) &&
               after.value.(clients := before.value.clients) == before.value)
  {
  }

  /** Removing the same client a second time changes nothing further. */
  lemma RemoveClientIdempotent(shows: seq<Show>, showId: string, userId: string)
    requires RemoveClient(shows, showId, userId).Some?
    ensures RemoveClient(RemoveClient(shows, showId, userId).value, showId, userId) ==
            RemoveClient(shows, showId, userId)
  {
    var once := RemoveClient(shows, showId, userId).value;
    assert forall i :: 0 <= i < |once| ==> once[i].id == shows[i].id;
    var twice := RemoveClient(once, showId, userId);
    assert twice.Some?;
    forall i | 0 <= i < |once| ensures twice.value[i] == once[i] {
      if once[i].id == showId {
        WithoutIdempotent(shows[i].clients.value, UserKey, userId);
      }
    }
  }

  /** Deleting by id drops exactly the shows with that id and keeps the others in order;
      with unique ids, it removes the one entry at its position. */
  lemma DeleteKeepsOthers(shows: seq<Show>, i: nat)
    requires UniqueKeys(shows, ShowKey)
    requires i < |shows|
    ensures Without(shows, ShowKey, shows[i].id) == shows[..i] + shows[i + 1..]
    ensures |Without(shows, ShowKey, shows[i].id)| == |shows| - 1
  {
    WithoutUnique(shows, ShowKey, i);
  }

  /** The view state. `loading` flags are rendering only and are not modelled. */
  class EditShow {
    var shows: seq<Show>
    var selectedShow: Option<Show>
    var error: Option<Notice>
    var success: Option<Notice>

    constructor ()
      ensures shows == [] && selectedShow == None && error == None && success == None
    {
      shows, selectedShow, error, success := [], None, None, None;
    }

    /** Loads the available shows. */
    method FetchInitialData(reply: Reply<seq<Show>>) returns (calls: seq<Call>)
      modifies this`shows, this`error
      ensures calls == [FetchShows]
      ensures reply.Ok? ==> shows == reply.value && error == None
      ensures reply.Fail? ==> shows == old(shows) && error == Some(Text(LoadFailedMessage))
    {
      calls := [FetchShows];
      match reply
      case Ok(list) =>
        shows := list;
        error := None;
      case Fail(_) =>
        error := Some(Text(LoadFailedMessage));
    }

    /** Picking an id in the show selector selects the first show with that id, or none. */
    method HandleShowSelect(showId: string)
      modifies this`selectedShow, this`error
      ensures selectedShow == Find(shows, ShowKey, showId) && error == None
      ensures selectedShow.None? <==> forall s :: s in shows ==> s.id != showId
      ensures selectedShow.Some? ==> selectedShow.value in shows && selectedShow.value.id == showId
    {
      selectedShow := Find(shows, ShowKey, showId);
      error := None;
    }

    /** Removes one client from the selected show, on the backend and then locally. */
    method HandleRemoveUser(userId: string, reply: Reply<()>) returns (calls: seq<Call>)
      modifies this`shows, this`selectedShow, this`error, this`success
      ensures old(selectedShow).None? ==>
                calls == [] && shows == old(shows) && selectedShow == old(selectedShow) &&
                error == old(error) && success == old(success)
      ensures old(selectedShow).Some? ==>
                calls == [RemoveUserFromShow(old(selectedShow).value.id, userId)]
      ensures old(selectedShow).Some? &&
              (reply.Fail? || RemoveClient(old(shows), old(selectedShow).value.id, userId).None?) ==>
                shows == old(shows) && selectedShow == old(selectedShow) &&
                error == Some(Text(RemoveFailedMessage)) && success == old(success)
      ensures old(selectedShow).Some? && reply.Ok? &&
              RemoveClient(old(shows), old(selectedShow).value.id, userId).Some? ==>
                shows == RemoveClient(old(shows), old(selectedShow).value.id, userId).value &&
                selectedShow == Find(shows, ShowKey, old(selectedShow).value.id) &&
                error == old(error) && success == Some(Text(UserRemovedMessage))
    {
      if selectedShow.None? {
        return [];
      }
      var showId := selectedShow.value.id;
      calls := [RemoveUserFromShow(showId, userId)];
      if reply.Fail? {
        error := Some(Text(RemoveFailedMessage));
        return;
      }
      var updated := RemoveClient(shows, showId, userId);
      if updated.None? {
        error := Some(Text(RemoveFailedMessage));
        return;
      }
      shows := updated.value;
      selectedShow := Find(shows, ShowKey, showId);
      success := Some(Text(UserRemovedMessage));
    }

    /** Deletes the selected show once the user has confirmed, on the backend and then
        locally. */
    method HandleDeleteShow(confirmed: bool, reply: Reply<()>) returns (calls: seq<Call>)
      modifies this`shows, this`selectedShow, this`error, this`success
      ensures old(selectedShow).None? || !confirmed ==>
                calls == [] && shows == old(shows) && selectedShow == old(selectedShow) &&
                error == old(error) && success == old(success)
      ensures old(selectedShow).Some? && confirmed ==>
                calls == [DeleteShow(old(selectedShow).value.id)]
      ensures old(selectedShow).Some? && confirmed && reply.Fail? ==>
                shows == old(shows) && selectedShow == old(selectedShow) &&
                error == Some(Text(DeleteFailedMessage)) && success == old(success)
      ensures old(selectedShow).Some? && confirmed && reply.Ok? ==>
                shows == Without(old(shows), ShowKey, old(selectedShow).value.id) &&
                (forall s :: s in shows <==> s in old(shows) && s.id != old(selectedShow).value.id) &&
                selectedShow == None && error == old(error) &&
                success == Some(Text(ShowDeletedMessage))
    {
      if selectedShow.None? || !confirmed {
        return [];
      }
      var showId := selectedShow.value.id;
      calls := [DeleteShow(showId)];
      if reply.Fail? {
        error := Some(Text(DeleteFailedMessage));
        return;
      }
      shows := Without(shows, ShowKey, showId);
      selectedShow := None;
      success := Some(Text(ShowDeletedMessage));
    }
  }
}
