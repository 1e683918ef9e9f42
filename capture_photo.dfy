/** The photo-capture view: up to three capture attempts in one backend session, a gallery
    refreshed from the backend, one selected photo, and an approval that ends the session. */
module CapturePhotoView {
  import opened Records

  /** The capture buttons are shown only while fewer attempts than this have been made. */
  const MaxAttempts: nat := 3

  /** The body of a successful capture; `sessionId` is None when the response has none. */
  datatype CaptureResult = CaptureResult(sessionId: Option<string>)

  /** The body of a photo fetch; `photos` is None when the response has no such field. */
  datatype PhotoList = PhotoList(photos: Option<seq<Photo>>)

  /** A nullable id tested for truthiness: of the values an id can take, exactly null and
      the empty string are falsy. */
  predicate IsSet(id: Option<string>)
    ensures IsSet(id) <==> id != None && id != Some("")
  {
    id.Some? && id.value != ""
  }

  class CaptureSession {
    var photos: seq<Photo>
    var currentAttempt: nat
    var sessionId: Option<string>
    var showId: Option<string>      // never assigned by the view, sent with every capture
    var userIds: seq<string>        // never assigned by the view, sent with every capture
    var error: Option<string>
    var selectedPhotoId: Option<string>

    /** At most three attempts, and no photos without a session to fetch them from. */
    ghost predicate Valid()
      reads this
    {
      currentAttempt <= MaxAttempts && (!IsSet(sessionId) ==> photos == [])
    }

    /** The session fields as the view starts and as approval leaves them. */
    predicate Initial()
      reads this
    {
      sessionId == None && photos == [] && currentAttempt == 0 && selectedPhotoId == None
    }

    /** Whether a capture button is rendered: exactly when one more attempt stays within
        the limit. */
    predicate CaptureEnabled()
      reads this
      ensures CaptureEnabled() <==> currentAttempt + 1 <= MaxAttempts
    {
      currentAttempt < MaxAttempts
    }

    constructor ()
      ensures Valid() && Initial() && CaptureEnabled()
      ensures showId == None && userIds == [] && error == None
    {
      photos, currentAttempt, sessionId, selectedPhotoId := [], 0, None, None;
      showId, userIds, error := None, [], None;
    }

    /** One fetch of the session's photos (the polling tick). Without a session it does
        nothing; otherwise the response replaces the list wholesale. */
    method FetchPhotos(reply: Reply<PhotoList>) returns (calls: seq<Call>)
      requires Valid()
      modifies this`photos, this`error
      ensures Valid()
      ensures !IsSet(sessionId) ==> calls == [] && photos == old(photos) && error == old(error)
      ensures IsSet(sessionId) ==> calls == [FetchCapturedPhotos(sessionId.value)]
      ensures IsSet(sessionId) && reply.Ok? ==>
                error == old(error) &&
                photos == (if reply.value.photos.Some? then reply.value.photos.value else [])
      ensures IsSet(sessionId) && reply.Fail? ==>
                photos == old(photos) && error == Some(reply.message)
    {
      if !IsSet(sessionId) {
        return [];
      }
      calls := [FetchCapturedPhotos(sessionId.value)];
      match reply
      case Ok(data) =>
        photos := if data.photos.Some? then data.photos.value else [];
      case Fail(message) =>
        error := Some(message);
    }

    /** One capture attempt. The fetch that follows a successful capture is the one bound
        to the session id the attempt started with, so it fetches only when that id was
        already set. Callable only while a capture button is rendered. */
    method HandleCapture(capture: Reply<CaptureResult>, fetch: Reply<PhotoList>)
      returns (calls: seq<Call>)
      requires Valid() && CaptureEnabled()
      modifies this`photos, this`currentAttempt, this`sessionId, this`error
      ensures Valid()
      ensures |calls| >= 1 && calls[0] == CapturePhoto(old(sessionId), showId, userIds)
      ensures capture.Fail? ==>
                calls == [calls[0]] && currentAttempt == old(currentAttempt) &&
                sessionId == old(sessionId) && photos == old(photos) &&
                error == Some(capture.message)
      ensures capture.Ok? ==>
                currentAttempt == old(currentAttempt) + 1 &&
                sessionId == (if IsSet(old(sessionId)) then old(sessionId)
                              else capture.value.sessionId)
      ensures capture.Ok? && !IsSet(old(sessionId)) ==>
                calls == [calls[0]] && photos == old(photos) && error == None
      ensures capture.Ok? && IsSet(old(sessionId)) ==>
                calls == [calls[0], FetchCapturedPhotos(old(sessionId).value)] &&
                (fetch.Ok? ==>
                   error == None &&
                   photos == (if fetch.value.photos.Some? then fetch.value.photos.value else [])) &&
                (fetch.Fail? ==> photos == old(photos) && error == Some(fetch.message))
    {
      var boundSession := sessionId;
      error := None;
      calls := [CapturePhoto(sessionId, showId, userIds)];
      match capture
      case Fail(message) =>
        error := Some(message);
      case Ok(result) =>
        if !IsSet(sessionId) {
          sessionId := result.sessionId;
        }
        currentAttempt := currentAttempt + 1;
        if IsSet(boundSession) {
          var fetchCalls := FetchPhotos(fetch);
          calls := calls + fetchCalls;
        }
    }

    /** A click on a gallery photo selects it, replacing any earlier selection. */
    method HandleSelectPhoto(photoId: string)
      modifies this`selectedPhotoId
      ensures selectedPhotoId == Some(photoId)
    {
      selectedPhotoId := Some(photoId);
    }

    /** Approves the selected photo, which ends the session. */
    method HandleApprove(reply: Reply<()>) returns (calls: seq<Call>)
      requires Valid()
      modifies this`photos, this`currentAttempt, this`sessionId, this`selectedPhotoId, this`error
      ensures Valid()
      ensures !(IsSet(old(selectedPhotoId)) && IsSet(old(sessionId))) ==>
                calls == [] && photos == old(photos) && currentAttempt == old(currentAttempt) &&
                sessionId == old(sessionId) && selectedPhotoId == old(selectedPhotoId) &&
                error == old(error)
      ensures IsSet(old(selectedPhotoId)) && IsSet(old(sessionId)) ==>
                calls == [ApprovePhoto(old(sessionId).value, old(selectedPhotoId).value)]
      ensures IsSet(old(selectedPhotoId)) && IsSet(old(sessionId)) && reply.Ok? ==>
                Initial() && CaptureEnabled() && error == None
      ensures IsSet(old(selectedPhotoId)) && IsSet(old(sessionId)) && reply.Fail? ==>
                photos == old(photos) && currentAttempt == old(currentAttempt) &&
                sessionId == old(sessionId) && selectedPhotoId == old(selectedPhotoId) &&
                error == Some(reply.message)
    {
      if !IsSet(selectedPhotoId) || !IsSet(sessionId) {
        return [];
      }
      error := None;
      calls := [ApprovePhoto(sessionId.value, selectedPhotoId.value)];
      match reply
      case Fail(message) =>
        error := Some(message);
      case Ok(_) =>
        sessionId := None;
        photos := [];
        currentAttempt := 0;
        selectedPhotoId := None;
    }
  }

  /** A client of the view: three successful captures in one session switch capture off,
      and a successful approval starts over with capture switched on again. */
  method CaptureThreeThenApprove(session: string, photo: Photo)
    returns (enabledAfterThree: bool, attemptsAfterThree: nat, initialAfterApprove: bool)
    requires session != "" && photo.photoId != ""
    ensures !enabledAfterThree && attemptsAfterThree == MaxAttempts && initialAfterApprove
  {
    var view := new CaptureSession();
    var gallery := Ok(PhotoList(Some([photo])));
    var _ := view.HandleCapture(Ok(CaptureResult(Some(session))), gallery);
    assert view.sessionId == Some(session) && view.photos == [];
    var _ := view.FetchPhotos(gallery);
    var _ := view.HandleCapture(Ok(CaptureResult(None)), gallery);
    var _ := view.HandleCapture(Ok(CaptureResult(None)), gallery);
    enabledAfterThree, attemptsAfterThree := view.CaptureEnabled(), view.currentAttempt;
    view.HandleSelectPhoto(photo.photoId);
    var _ := view.HandleApprove(Ok(()));
    initialAfterApprove := view.Initial();
  }
}
