/** The assign-users view: the user picks up to four waiting users and one show, then
    assigns every picked user to that show with one backend call each. */
module AssignUsersView {
  import opened Records

  const SelectUsersAndShowMessage := "Please select users and a show"
  const AssignFailedMessage := "Failed to assign users"
  const LoadFailedMessage := "Failed to load data"

  /** What every reachable selection satisfies: at most four users, no id twice. */
  predicate SelectionOk(sel: seq<User>)
  {
    |sel| <= MaxParticipants && UniqueKeys(sel, UserKey)
  }

  /** The state updater of one click on a user: deselect by `_id` if selected, refuse a new
      user once four are selected, and append otherwise. */
  function Toggle(prev: seq<User>, user: User): (next: seq<User>)
    ensures forall x :: x in next ==> x in prev || x == user
    ensures forall x :: x in prev && x.id != user.id ==> x in next
    ensures |prev| <= MaxParticipants ==> |next| <= MaxParticipants
  {
    if Find(prev, UserKey, user.id).Some? then Without(prev, UserKey, user.id)
    else if |prev| >= MaxParticipants then prev
    else prev + [user]
  }

  /** The selection after clicking the given users one after another. */
  function ToggleAll(sel: seq<User>, clicks: seq<User>): (final: seq<User>)
    decreases |clicks|
  {
    if clicks == [] then sel else ToggleAll(Toggle(sel, clicks[0]), clicks[1..])
  }

  /** Clicking a selected user removes exactly that entry; the rest keep their order. */
  lemma ToggleDeselects(prev: seq<User>, user: User, i: nat)
    requires SelectionOk(prev)
    requires i < |prev| && prev[i].id == user.id
    ensures Toggle(prev, user) == prev[..i] + prev[i + 1..]
  {
    assert prev[i] in prev;
    WithoutUnique(prev, UserKey, i);
  }

  /** Clicking an unselected user while fewer than four are selected appends it. */
  lemma ToggleSelects(prev: seq<User>, user: User)
    requires forall j :: 0 <= j < |prev| ==> prev[j].id != user.id
    requires |prev| < MaxParticipants
    ensures Toggle(prev, user) == prev + [user]
  {
  }

  /** Clicking an unselected user while four are selected changes nothing. */
  lemma ToggleRefusesWhenFull(prev: seq<User>, user: User)
    requires forall j :: 0 <= j < |prev| ==> prev[j].id != user.id
    requires |prev| >= MaxParticipants
    ensures Toggle(prev, user) == prev
  {
  }

  /** One click keeps the selection within four users with distinct ids. */
  lemma ToggleKeepsSelectionOk(prev: seq<User>, user: User)
    requires SelectionOk(prev)
    ensures SelectionOk(Toggle(prev, user))
  {
    if Find(prev, UserKey, user.id).Some? {
      WithoutKeepsUnique(prev, UserKey, user.id);
    } else if |prev| < MaxParticipants {
      var next := prev + [user];
      forall i, j | 0 <= i < j < |next| ensures UserKey(next[i]) != UserKey(next[j]) {
        if j == |prev| {
          assert prev[i] in prev;
        }
      }
    }
  }

  /** Any sequence of clicks keeps the selection within four users with distinct ids. */
  lemma {:induction false} ToggleAllKeepsSelectionOk(sel: seq<User>, clicks: seq<User>)
    requires SelectionOk(sel)
    ensures SelectionOk(ToggleAll(sel, clicks))
    decreases |clicks|
  {
    if clicks != [] {
      ToggleKeepsSelectionOk(sel, clicks[0]);
      ToggleAllKeepsSelectionOk(Toggle(sel, clicks[0]), clicks[1..]);
    }
  }

  /** From the initial empty selection, no sequence of clicks selects more than four users
      or the same id twice. */
  lemma SelectionFromEmptyOk(clicks: seq<User>)
    ensures |ToggleAll([], clicks)| <= MaxParticipants
    ensures forall i, j :: 0 <= i < j < |ToggleAll([], clicks)| ==>
              ToggleAll([], clicks)[i].id != ToggleAll([], clicks)[j].id
  {
    ToggleAllKeepsSelectionOk([], clicks);
  }

  /** The capacity check of a show click: a show that reports its clients is refused when
      they and the pending selection together exceed four. A show without a `clients`
      field is never refused. */
  function ShowRejects(show: Show, pending: nat): (rejected: bool)
    ensures show.clients.None? ==> !rejected
    ensures show.clients.Some? ==>
              (rejected <==> pending > MaxParticipants - |show.clients.value|)
  {
    show.clients.Some? && |show.clients.value| + pending > MaxParticipants
  }

  /** One assignment request per selected user, in selection order. */
  function AssignCalls(users: seq<User>, showId: string): (calls: seq<Call>)
    ensures |calls| == |users|
    ensures forall i :: 0 <= i < |users| ==> calls[i] == AssignUserToShow(users[i].id, showId)
    decreases |users|
  {
    if users == [] then []
    else [AssignUserToShow(users[0].id, showId)] + AssignCalls(users[1..], showId)
  }

  /** The capacity check runs only when the show is clicked: a show holding three clients
      accepts a pending selection of one user, after which three more users can still be
      clicked in, and the assign guard then issues four calls for that show. */
  lemma CapacityNotRecheckedAtAssign(show: Show, u1: User, u2: User, u3: User, u4: User)
    requires show.clients.Some? && |show.clients.value| == 3
    requires u1.id != u2.id && u1.id != u3.id && u1.id != u4.id
    requires u2.id != u3.id && u2.id != u4.id && u3.id != u4.id
    ensures ToggleAll([], [u1]) == [u1] && !ShowRejects(show, 1)
    ensures ToggleAll([u1], [u2, u3, u4]) == [u1, u2, u3, u4] && ShowRejects(show, 4)
    ensures |AssignCalls([u1, u2, u3, u4], show.id)| == MaxParticipants
  {
    var empty: seq<User> := [];
    ToggleSelects(empty, u1);
    assert empty + [u1] == [u1];
    assert [u1][1..] == [];
    ToggleSelects([u1], u2);
    assert [u1] + [u2] == [u1, u2];
    ToggleSelects([u1, u2], u3);
    assert [u1, u2] + [u3] == [u1, u2, u3];
    ToggleSelects([u1, u2, u3], u4);
    assert [u1, u2, u3] + [u4] == [u1, u2, u3, u4];
    assert [u4][1..] == [];
    assert [u3, u4][1..] == [u4];
    assert [u2, u3, u4][1..] == [u3, u4];
    assert ToggleAll([u1, u2, u3], [u4]) == [u1, u2, u3, u4];
    assert ToggleAll([u1, u2], [u3, u4]) == [u1, u2, u3, u4];
  }

  /** The view state. `loading` flags are rendering only and are not modelled. */
  class AssignUsers {
    var users: seq<User>
    var shows: seq<Show>
    var selectedUsers: seq<User>
    var selectedShow: Option<Show>
    var error: Option<Notice>
    var success: Option<Notice>

    ghost predicate Valid()
      reads this
    {
      SelectionOk(selectedUsers)
    }

    constructor ()
      ensures Valid()
      ensures users == [] && shows == [] && selectedUsers == [] && selectedShow == None
      ensures error == None && success == None
    {
      users, shows, selectedUsers, selectedShow := [], [], [], None;
      error, success := None, None;
    }

    /** Loads the waiting users and the available shows; either call failing fails both. */
    method FetchInitialData(reply: Reply<(seq<User>, seq<Show>)>) returns (calls: seq<Call>)
      modifies this`users, this`shows, this`error
      ensures calls == [FetchUsers, FetchShows]
      ensures reply.Ok? ==> users == reply.value.0 && shows == reply.value.1 && error == old(error)
      ensures reply.Fail? ==> users == old(users) && shows == old(shows) &&
                              error == Some(Text(LoadFailedMessage))
    {
      calls := [FetchUsers, FetchShows];
      match reply
      case Ok(data) =>
        users, shows := data.0, data.1;
      case Fail(_) =>
        error := Some(Text(LoadFailedMessage));
    }

    /** A click on a user. A click that is not refused clears the error. The banner left
        behind by a refused click depends on when the framework runs the updater, so the
        contract says nothing about `error` for that case. */
    method HandleUserSelection(user: User)
      requires Valid()
      modifies this`selectedUsers, this`error
      ensures Valid()
      ensures selectedUsers == Toggle(old(selectedUsers), user)
      ensures ((exists x :: x in old(selectedUsers) && x.id == user.id) ||
               |old(selectedUsers)| < MaxParticipants) ==> error == None
    {
      ToggleKeepsSelectionOk(selectedUsers, user);
      selectedUsers := Toggle(selectedUsers, user);
      error := None;
    }

    /** A click on a show: refused with the remaining capacity when the show cannot take the
        pending selection, otherwise it becomes the chosen show. */
    method HandleShowSelection(show: Show)
      modifies this`selectedShow, this`error
      ensures ShowRejects(show, |selectedUsers|) ==>
                selectedShow == old(selectedShow) &&
                error == Some(CanOnlyAccept(MaxParticipants - |show.clients.value|))
      ensures !ShowRejects(show, |selectedUsers|) ==> selectedShow == Some(show) && error == None
    {
      if ShowRejects(show, |selectedUsers|) {
        error := Some(CanOnlyAccept(MaxParticipants - |show.clients.value|));
        return;
      }
      selectedShow := Some(show);
      error := None;
    }

    /** Assigns every selected user to the chosen show. `batch` is the combined outcome of
        the assignment calls, `reload` that of the data reload that follows a success. */
    method HandleAssign(batch: Reply<()>, reload: Reply<(seq<User>, seq<Show>)>)
      returns (calls: seq<Call>)
      requires Valid()
      modifies this
      ensures Valid()
      ensures old(selectedUsers) == [] || old(selectedShow).None? ==>
                calls == [] && error == Some(Text(SelectUsersAndShowMessage)) &&
                selectedUsers == old(selectedUsers) && selectedShow == old(selectedShow) &&
                users == old(users) && shows == old(shows) && success == old(success)
      ensures old(selectedUsers) != [] && old(selectedShow).Some? && batch.Fail? ==>
                calls == AssignCalls(old(selectedUsers), old(selectedShow).value.id) &&
                error == Some(Text(MessageOr(batch.message, AssignFailedMessage))) &&
                selectedUsers == old(selectedUsers) && selectedShow == old(selectedShow) &&
                users == old(users) && shows == old(shows) && success == old(success)
      ensures old(selectedUsers) != [] && old(selectedShow).Some? && batch.Ok? ==>
                calls == AssignCalls(old(selectedUsers), old(selectedShow).value.id) +
                         [FetchUsers, FetchShows] &&
                selectedUsers == [] && selectedShow == None &&
                success == Some(AssignedUsers(|old(selectedUsers)|)) &&
                (reload.Ok? ==> users == reload.value.0 && shows == reload.value.1 &&
                                error == old(error)) &&
                (reload.Fail? ==> users == old(users) && shows == old(shows) &&
                                  error == Some(Text(LoadFailedMessage)))
    {
      if selectedUsers == [] || selectedShow.None? {
        error := Some(Text(SelectUsersAndShowMessage));
        calls := [];
        return;
      }
      calls := AssignCalls(selectedUsers, selectedShow.value.id);
      match batch
      case Fail(message) =>
        error := Some(Text(MessageOr(message, AssignFailedMessage)));
      case Ok(_) =>
        success := Some(AssignedUsers(|selectedUsers|));
        selectedUsers := [];
        selectedShow := None;
        var reloadCalls := FetchInitialData(reload);
        calls := calls + reloadCalls;
    }
  }
}
