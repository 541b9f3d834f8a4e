/** handletempmedia: checks the metadata an upload service attached to the request,
    settles the media type, and stores a pending temporary-media record that expires
    one minute later. */
module TempMedia {
  import opened Common
  import opened PostSchema

  /** The metadata object as received; every field may be absent. */
  datatype MediaData = MediaData(
    publicId: Option<string>,
    url: Option<string>,
    playbackUrl: Option<string>,
    kind: Option<string>,
    resourceType: Option<string>,
    width: Option<int>,
    height: Option<int>,
    format: Option<string>,
    bytes: Option<int>,
    duration: Option<int>)

  datatype TempStatus = Pending

  datatype TempRecord = TempRecord(
    id: Id,
    userId: Id,
    url: string,
    publicId: string,
    playbackUrl: Option<string>,
    kind: MediaKind,
    width: Option<int>,
    height: Option<int>,
    format: Option<string>,
    bytes: Option<int>,
    duration: Option<int>,
    status: TempStatus,
    expiresAt: int)

  /** One minute, in milliseconds. */
  const PendingLifetime: int := 1 * 60 * 1000

  /** A JavaScript-truthy string: present and not empty. */
  predicate Truthy(s: Option<string>) {
    s.Some? && s.value != ""
  }

  function KindName(k: MediaKind): string {
    match k
    case Image => "image"
    case Video => "video"
  }

  /** The stored type: the reported type when it is one of the two, otherwise video
      exactly when the host's resource type says so. */
  function SafeType(d: MediaData): (k: MediaKind)
    ensures d.kind == Some("image") || d.kind == Some("video") ==> Some(KindName(k)) == d.kind
    ensures d.kind != Some("image") && d.kind != Some("video") ==> (k == Video <==> d.resourceType == Some("video"))
  {
    if d.kind == Some("video") then Video
    else if d.kind == Some("image") then Image
    else if d.resourceType == Some("video") then Video
    else Image
  }

  /** The record handletempmedia stores, or BadRequest when the metadata, its publicId
      or its url is missing or empty. */
  function TempMediaRecord(data: Option<MediaData>, userId: Id, id: Id, now: int): (r: Result<TempRecord>)
    ensures r.Err? <==> data.None? || !Truthy(data.value.publicId) || !Truthy(data.value.url)
    ensures r.Err? ==> r.status == BadRequest
    ensures r.Ok? ==> r.value.url == data.value.url.value && r.value.publicId == data.value.publicId.value
    ensures r.Ok? ==> (r.value.playbackUrl.Some? <==> Truthy(data.value.playbackUrl))
    ensures r.Ok? ==> r.value.status == Pending && r.value.expiresAt == now + 60000
    ensures r.Ok? ==> r.value.kind == SafeType(data.value) && r.value.userId == userId
  {
    if data.None? || !Truthy(data.value.publicId) || !Truthy(data.value.url) then Err(BadRequest)
    else
      var d := data.value;
      Ok(TempRecord(id, userId, d.url.value, d.publicId.value,
                    if Truthy(d.playbackUrl) then d.playbackUrl else None,
                    SafeType(d), d.width, d.height, d.format, d.bytes, d.duration,
                    Pending, now + PendingLifetime))
  }

  /** The temporary-media collection. */
  class TempMediaCollection {
    var docs: seq<TempRecord>

    constructor ()
      ensures docs == []
    {
      docs := [];
    }
  }

  /** handletempmedia: on valid metadata one record is appended and answered (201);
      otherwise nothing is stored. */
  method HandleTempMedia(store: TempMediaCollection, data: Option<MediaData>, userId: Id, id: Id, now: int)
    returns (r: Result<TempRecord>)
    modifies store
    ensures r == TempMediaRecord(data, userId, id, now)
    ensures r.Ok? ==> store.docs == old(store.docs) + [r.value]
    ensures r.Err? ==> store.docs == old(store.docs)
  {
    if data.None? || !Truthy(data.value.publicId) || !Truthy(data.value.url) {
      return Err(BadRequest);
    }
    var d := data.value;
    var safeType := SafeType(d);
    var playback := if Truthy(d.playbackUrl) then d.playbackUrl else None;
    var media := TempRecord(id, userId, d.url.value, d.publicId.value, playback, safeType,
                            d.width, d.height, d.format, d.bytes, d.duration,
                            Pending, now + PendingLifetime);
    store.docs := store.docs + [media];
    return Ok(media);
  }
}
