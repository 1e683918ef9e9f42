/** Records shared by the three views: users, shows and photos as the backend returns them,
    the outcome of a backend call, the calls a view issues, and the banners it shows.
    Also the keyed-list helpers the views use (`find` and `filter` by `_id`). */
module Records {

  /** A show holds at most this many participants; a selection holds at most this many users. */
  const MaxParticipants: nat := 4

  /** A nullable JavaScript value. */
  datatype Option<T> = None | Some(value: T)

  /** The outcome of one awaited backend call: its decoded body, or the message of the
      error it threw. */
  datatype Reply<T> = Ok(value: T) | Fail(message: string)

  datatype User = User(id: string, name: string)

  /** `clients` is None when the backend's show object has no `clients` field. */
  datatype Show = Show(id: string, startTime: string, duration: int, clients: Option<seq<User>>)

  datatype Photo = Photo(photoId: string, url: string)

  /** One request sent to the backend, named after the API client function that sends it. */
  datatype Call =
    | FetchUsers
    | FetchShows
    | AssignUserToShow(userId: string, showId: string)
    | RemoveUserFromShow(showId: string, userId: string)
    | DeleteShow(showId: string)
    | CapturePhoto(session: Option<string>, forShow: Option<string>, userIds: seq<string>)
    | FetchCapturedPhotos(sessionId: string)
    | ApprovePhoto(sessionId: string, photoId: string)

  /** A banner text. Fixed and server-supplied texts are `Text`; the two texts that embed
      a number keep the number. */
  datatype Notice =
    | Text(text: string)
    | CanOnlyAccept(more: int)     // "This show can only accept <more> more users"
    | AssignedUsers(count: nat)    // "Successfully assigned <count> user(s) to the show"

  /** `message || fallback`: an empty message is falsy. The banner shows one of the two
      texts, and it is never blank when the fallback is not. */
  function MessageOr(message: string, fallback: string): (r: string)
    ensures r == message || r == fallback
    ensures message != "" ==> r == message
    ensures fallback != "" ==> r != ""
  {
    if message != "" then message else fallback
  }

  function UserKey(u: User): (k: string) { u.id }

  function ShowKey(s: Show): (k: string) { s.id }

  /** No two entries share a key. */
  predicate UniqueKeys<T>(s: seq<T>, key: T -> string)
  {
    forall i, j :: 0 <= i < j < |s| ==> key(s[i]) != key(s[j])
  }

  /** Position of the first entry with key `k`, or `|s|` when there is none. */
  function FirstIndex<T>(s: seq<T>, key: T -> string, k: string): (i: nat)
    ensures i <= |s|
    ensures forall j :: 0 <= j < i ==> key(s[j]) != k
    ensures i < |s| ==> key(s[i]) == k
    decreases |s|
  {
    if s == [] then 0
    else if key(s[0]) == k then 0
    else 1 + FirstIndex(s[1..], key, k)
  }

  /** `s.find(x => key(x) === k)`: the first entry with key `k`, if any. */
  function Find<T(==,!new)>(s: seq<T>, key: T -> string, k: string): (r: Option<T>)
    ensures r.None? <==> forall x :: x in s ==> key(x) != k
    ensures r.Some? ==> key(r.value) == k
    ensures r.Some? ==> exists i :: 0 <= i < |s| && s[i] == r.value &&
                                    forall j :: 0 <= j < i ==> key(s[j]) != k
  {
    var i := FirstIndex(s, key, k);
    if i < |s| then Some(s[i]) else None
  }

  /** `s.filter(x => key(x) !== k)`: every entry whose key is not `k`. */
  function Without<T(==,!new)>(s: seq<T>, key: T -> string, k: string): (r: seq<T>)
    ensures |r| <= |s|
    ensures forall x :: x in r <==> x in s && key(x) != k
    decreases |s|
  {
    if s == [] then []
    else if key(s[0]) == k then Without(s[1..], key, k)
    else [s[0]] + Without(s[1..], key, k)
  }

  /** Filtering works piecewise, so it keeps the relative order of what it keeps. */
  lemma {:induction false} WithoutConcat<T(!new)>(a: seq<T>, b: seq<T>, key: T -> string, k: string)
    ensures Without(a + b, key, k) == Without(a, key, k) + Without(b, key, k)
    decreases |a|
  {
    if a == [] {
      assert a + b == b;
    } else {
      assert (a + b)[1..] == a[1..] + b;
      WithoutConcat(a[1..], b, key, k);
    }
  }

  /** Filtering out a key no entry has changes nothing. */
  lemma {:induction false} WithoutAbsent<T(!new)>(s: seq<T>, key: T -> string, k: string)
    requires forall j :: 0 <= j < |s| ==> key(s[j]) != k
    ensures Without(s, key, k) == s
    decreases |s|
  {
    if s != [] {
      WithoutAbsent(s[1..], key, k);
    }
  }

  /** In a list with unique keys, filtering out the key of entry `i` removes exactly that
      entry and keeps the others in order. */
  lemma {:induction false} WithoutUnique<T(!new)>(s: seq<T>, key: T -> string, i: nat)
    requires UniqueKeys(s, key)
    requires i < |s|
    ensures Without(s, key, key(s[i])) == s[..i] + s[i + 1..]
  {
    var k := key(s[i]);
    assert s == s[..i] + ([s[i]] + s[i + 1..]);
    WithoutConcat(s[..i], [s[i]] + s[i + 1..], key, k);
    WithoutConcat([s[i]], s[i + 1..], key, k);
    WithoutAbsent(s[..i], key, k);
    WithoutAbsent(s[i + 1..], key, k);
    assert Without([s[i]], key, k) == [];
  }

  /** Filtering twice by the same key is filtering once. */
  lemma WithoutIdempotent<T(!new)>(s: seq<T>, key: T -> string, k: string)
    ensures Without(Without(s, key, k), key, k) == Without(s, key, k)
  {
  }

  /** Filtering keeps keys unique. */
  lemma {:induction false} WithoutKeepsUnique<T(!new)>(s: seq<T>, key: T -> string, k: string)
    requires UniqueKeys(s, key)
    ensures UniqueKeys(Without(s, key, k), key)
    decreases |s|
  {
    if s != [] {
      var tail := s[1..];
      assert UniqueKeys(tail, key) by {
        forall i, j | 0 <= i < j < |tail| ensures key(tail[i]) != key(tail[j]) {
          assert tail[i] == s[i + 1] && tail[j] == s[j + 1];
        }
      }
      WithoutKeepsUnique(tail, key, k);
      var t := Without(tail, key, k);
      if key(s[0]) != k {
        forall j | 0 <= j < |t| ensures key(s[0]) != key(t[j]) {
          assert t[j] in tail;
          var m :| 0 <= m < |tail| && tail[m] == t[j];
          assert s[m + 1] == t[j];
        }
        var r := [s[0]] + t;
        forall i, j | 0 <= i < j < |r| ensures key(r[i]) != key(r[j]) {
          assert r[j] == t[j - 1];
          if i > 0 {
            assert r[i] == t[i - 1];
          }
        }
      }
    }
  }
}
