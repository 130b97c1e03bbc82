/** `app/app/api/shows/upload/route.ts`: the request checks shared by both
    upload routes, and the plain upload that inserts the shows as sent. */
module Upload {
  import opened Wrappers
  import opened Text

  /** The `notes` of a show: absent or null, a string, or a value of another
      JSON type. */
  datatype Notes = NoNotes | NotesText(text: string) | NotesNotString

  /** One element of the request's `shows` array. */
  datatype ShowPayload = ShowPayload(
    userId: string,
    date: string,
    artists: seq<string>,
    venue: Option<string>,
    city: Option<string>,
    state: Option<string>,
    country: Option<string>,
    notes: Notes)

  /** The request body: not JSON at all, or an object whose `shows` is an
      array (`None` when it is missing or not an array). */
  datatype Body = Unparsable | Body(shows: Option<seq<ShowPayload>>)

  /** Why a route answers with an error. */
  datatype Rejection =
    | Unauthorized
    | ShowsRequired
    | Forbidden
    | NotesNotAString
    | NotesTooLong(found: nat)
    | UsaVenueIncomplete
    | SaveFailed
    | InternalError

  /** The HTTP status each rejection is sent with. */
  function Status(r: Rejection): (code: int)
    ensures code == 401 <==> r == Unauthorized
    ensures code == 403 <==> r == Forbidden
    ensures code == 500 <==> r == SaveFailed || r == InternalError
    ensures code == 400 || code == 401 || code == 403 || code == 500
  {
    match r
    case Unauthorized => 401
    case Forbidden => 403
    case SaveFailed => 500
    case InternalError => 500
    case _ => 400
  }

  const MaxNotesLength: nat := 4096

  /** `String.prototype.length`: UTF-16 code units, two for a character
      outside the Basic Multilingual Plane. */
  function Utf16Length(s: string): (n: nat)
    ensures |s| <= n <= 2 * |s|
    ensures n == |s| <==> forall i :: 0 <= i < |s| ==> (s[i] as int) < 0x1_0000
  {
    if |s| == 0 then 0
    else (if (s[0] as int) < 0x1_0000 then 1 else 2) + Utf16Length(s[1..])
  }

  /** The checks run on each show, in order: the owner, then the notes, then
      (upload-with-progress only) the fields a USA venue needs. */
  function ShowRejection(show: ShowPayload, userId: string, requireUsaFields: bool): Option<Rejection> {
    if show.userId != userId then Some(Forbidden)
    else if show.notes.NotesNotString? then Some(NotesNotAString)
    else if show.notes.NotesText? && Utf16Length(show.notes.text) > MaxNotesLength then
      Some(NotesTooLong(Utf16Length(show.notes.text)))
    else if requireUsaFields && show.country == Some("USA") && (!Truthy(show.venue) || !Truthy(show.city)) then
      Some(UsaVenueIncomplete)
    else None
  }

  predicate Accepted(shows: seq<ShowPayload>, userId: string, requireUsaFields: bool) {
    AcceptedBefore(shows, userId, requireUsaFields, |shows|)
  }

  /** The first `k` shows pass the checks. */
  predicate AcceptedBefore(shows: seq<ShowPayload>, userId: string, requireUsaFields: bool, k: int) {
    forall j :: 0 <= j < k && j < |shows| ==> ShowRejection(shows[j], userId, requireUsaFields).None?
  }

  /** The validation loop: the rejection of the first show that has one. */
  function FirstRejection(shows: seq<ShowPayload>, userId: string, requireUsaFields: bool): (r: Option<Rejection>)
    ensures r.None? <==> Accepted(shows, userId, requireUsaFields)
    ensures r.Some? ==>
              exists i :: 0 <= i < |shows| && r == ShowRejection(shows[i], userId, requireUsaFields)
                          && AcceptedBefore(shows, userId, requireUsaFields, i)
  {
    FirstRejectionFrom(shows, userId, requireUsaFields, 0)
  }

  function FirstRejectionFrom(shows: seq<ShowPayload>, userId: string, requireUsaFields: bool, k: nat)
    : (r: Option<Rejection>)
    requires k <= |shows| && AcceptedBefore(shows, userId, requireUsaFields, k)
    ensures r.None? <==> Accepted(shows, userId, requireUsaFields)
    ensures r.Some? ==>
              exists i :: k <= i < |shows| && r == ShowRejection(shows[i], userId, requireUsaFields)
                          && AcceptedBefore(shows, userId, requireUsaFields, i)
    decreases |shows| - k
  {
    if k == |shows| then None
    else
      var here := ShowRejection(shows[k], userId, requireUsaFields);
      if here.Some? then here
      else FirstRejectionFrom(shows, userId, requireUsaFields, k + 1)
  }

  /** An accepted batch belongs to the caller and has no over-long notes. */
  lemma AcceptedShowsAreOwnAndShort(shows: seq<ShowPayload>, userId: string, requireUsaFields: bool)
    requires Accepted(shows, userId, requireUsaFields)
    ensures forall i :: 0 <= i < |shows| ==>
              shows[i].userId == userId && !shows[i].notes.NotesNotString?
              && (shows[i].notes.NotesText? ==> Utf16Length(shows[i].notes.text) <= MaxNotesLength)
  {
    forall i | 0 <= i < |shows|
      ensures shows[i].userId == userId && !shows[i].notes.NotesNotString?
    {
      assert ShowRejection(shows[i], userId, requireUsaFields).None?;
    }
  }

  /** The checks both routes make before touching the store: the caller is
      signed in, and `shows` is a non-empty array. */
  function Preflight(user: Option<string>, body: Body): (r: Result<seq<ShowPayload>, Rejection>)
    ensures r.Ok? <==> user.Some? && body.Body? && body.shows.Some? && |body.shows.value| > 0
    ensures r.Ok? ==> r.value == body.shows.value
    ensures user.None? ==> r == Err(Unauthorized)
  {
    if user.None? then Err(Unauthorized)
    else if body.Unparsable? then Err(InternalError)
    else if body.shows.None? || |body.shows.value| == 0 then Err(ShowsRequired)
    else Ok(body.shows.value)
  }

  datatype Response = Rejected(reason: Rejection) | Uploaded(count: nat)

  /** `POST /api/shows/upload`: every show checked, then one insert of the
      whole array, which either stores all of it or nothing. */
  function HandleUpload(user: Option<string>, body: Body, table: seq<ShowPayload>, insertFails: bool)
    : (r: (Response, seq<ShowPayload>))
    ensures user.None? ==> r.0 == Rejected(Unauthorized)
    ensures r.0.Uploaded? <==>
              Preflight(user, body).Ok? && Accepted(Preflight(user, body).value, user.value, false) && !insertFails
    ensures r.0.Uploaded? ==> r.1 == table + body.shows.value && r.0.count == |body.shows.value|
    ensures r.0.Rejected? ==> r.1 == table
    ensures r.0 == Rejected(Forbidden) ==>
              Preflight(user, body).Ok? &&
              exists i :: 0 <= i < |Preflight(user, body).value| && Preflight(user, body).value[i].userId != user.value
    ensures forall i :: |table| <= i < |r.1| ==> user.Some? && r.1[i].userId == user.value
  {
    match Preflight(user, body)
    case Err(why) => (Rejected(why), table)
    case Ok(shows) =>
      match FirstRejection(shows, user.value, false)
      case Some(why) => (Rejected(why), table)
      case None =>
        if insertFails then (Rejected(SaveFailed), table)
        else
          AcceptedShowsAreOwnAndShort(shows, user.value, false);
          (Uploaded(|shows|), table + shows)
  }
}
