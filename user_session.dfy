/**
 * The session collection's record shapes (server/models/UserSession.js):
 * one record per account, holding its profile fields and its ordered device
 * list, plus the lookups the server performs on the collection.
 */
module UserSessionSchema {
  import opened JsText

  /** One entry of a record's device list, by its schema fields: an id and a name (Mongoose's per-entry `_id` is not modelled). */
  datatype Device = Device(deviceId: string, deviceName: string)

  /** A stored record. `name` and `phoneNumber` are optional (absent or null). */
  datatype UserSession = UserSession(
    userId: string,
    email: string,
    name: Option<string>,
    phoneNumber: Option<string>,
    devices: seq<Device>,
    maxDevices: int)

  /** The value `maxDevices` takes when a record is created without one. */
  const DefaultMaxDevices: int := 3

  /**
   * A document handed to `create`: the required fields may be missing, and
   * `maxDevices` may be left to its default.
   */
  datatype NewSession = NewSession(
    userId: Option<string>,
    email: Option<string>,
    name: Option<string>,
    phoneNumber: Option<string>,
    devices: seq<Device>,
    maxDevices: Option<int>)

  /** The schema's `required: true` on a string rejects a missing or empty value. */
  predicate DeviceConforms(d: Device)
  {
    d.deviceId != "" && d.deviceName != ""
  }

  predicate Conforms(u: UserSession)
  {
    && u.userId != ""
    && u.email != ""
    && forall i :: 0 <= i < |u.devices| ==> DeviceConforms(u.devices[i])
  }

  /** No two entries of a device list share a `deviceId`. */
  predicate DistinctDeviceIds(devices: seq<Device>)
  {
    forall i, j :: 0 <= i < j < |devices| ==> devices[i].deviceId != devices[j].deviceId
  }

  /** The device list fits the record's capacity, and that capacity admits at least one device. */
  predicate WithinCapacity(u: UserSession)
  {
    1 <= u.maxDevices && |u.devices| <= u.maxDevices
  }

  /** The unique index on `userId`. */
  predicate UniqueUserIds(records: seq<UserSession>)
  {
    forall i, j :: 0 <= i < j < |records| ==> records[i].userId != records[j].userId
  }

  /**
   * Schema validation and defaulting of a new document: it is accepted
   * exactly when its required fields are present and non-empty, and the
   * stored record then carries `maxDevices` 3 unless the document set one.
   */
  function Validate(doc: NewSession): (r: Option<UserSession>)
    ensures r.Some? <==>
      Truthy(doc.userId) && Truthy(doc.email) &&
      forall i :: 0 <= i < |doc.devices| ==> DeviceConforms(doc.devices[i])
    ensures r.Some? ==> Conforms(r.value)
    ensures r.Some? ==>
      && r.value.userId == doc.userId.value
      && r.value.email == doc.email.value
      && r.value.name == doc.name
      && r.value.phoneNumber == doc.phoneNumber
      && r.value.devices == doc.devices
    ensures r.Some? && doc.maxDevices.None? ==> r.value.maxDevices == DefaultMaxDevices
    ensures r.Some? && doc.maxDevices.Some? ==> r.value.maxDevices == doc.maxDevices.value
  {
    if Truthy(doc.userId) && Truthy(doc.email) &&
       forall i :: 0 <= i < |doc.devices| ==> DeviceConforms(doc.devices[i])
    then
      var max := if doc.maxDevices.Some? then doc.maxDevices.value else DefaultMaxDevices;
      Some(UserSession(doc.userId.value, doc.email.value, doc.name, doc.phoneNumber, doc.devices, max))
    else None
  }

  /**
   * `create`: the validated record is appended to the collection, unless the
   * document fails validation or its `userId` is already taken.
   */
  function Insert(records: seq<UserSession>, doc: NewSession): (r: Option<seq<UserSession>>)
    ensures r.Some? <==>
      Validate(doc).Some? && forall i :: 0 <= i < |records| ==> records[i].userId != doc.userId.value
    ensures r.Some? ==> r.value == records + [Validate(doc).value]
    ensures r.Some? && UniqueUserIds(records) ==> UniqueUserIds(r.value)
  {
    match Validate(doc)
    case None => None
    case Some(u) =>
      if forall i :: 0 <= i < |records| ==> records[i].userId != u.userId
      then Some(records + [u])
      else None
  }

  /**
   * The index of the first element satisfying `p`, or -1 when there is none:
   * `Array.prototype.findIndex`, and the position of what `findOne` returns.
   */
  function FindIndex<T>(s: seq<T>, p: T -> bool): (r: int)
    ensures -1 <= r < |s|
    ensures r == -1 <==> forall j :: 0 <= j < |s| ==> !p(s[j])
    ensures r != -1 ==> p(s[r]) && forall j :: 0 <= j < r ==> !p(s[j])
  {
    if s == [] then -1
    else if p(s[0]) then 0
    else
      var k := FindIndex(s[1..], p);
      if k == -1 then -1 else k + 1
  }

  /** `findOne({ userId })`; an absent key matches no stored record. */
  function FindByUserId(records: seq<UserSession>, userId: Option<string>): (r: int)
    ensures -1 <= r < |records|
    ensures r == -1 <==> forall j :: 0 <= j < |records| ==> Some(records[j].userId) != userId
    ensures r != -1 ==> Some(records[r].userId) == userId
    ensures r != -1 ==> forall j :: 0 <= j < r ==> Some(records[j].userId) != userId
  {
    FindIndex(records, (u: UserSession) => Some(u.userId) == userId)
  }

  /** `findOne({ email })`: the first record with that email. */
  function FindByEmail(records: seq<UserSession>, email: string): (r: int)
    ensures -1 <= r < |records|
    ensures r == -1 <==> forall j :: 0 <= j < |records| ==> records[j].email != email
    ensures r != -1 ==> records[r].email == email
    ensures r != -1 ==> forall j :: 0 <= j < r ==> records[j].email != email
  {
    FindIndex(records, (u: UserSession) => u.email == email)
  }

  /**
   * What holds of the collection between requests: every record passes the
   * schema, `userId`s are unique, and every device list is duplicate-free and
   * within its record's capacity.
   */
  predicate RegistryInvariant(records: seq<UserSession>)
  {
    && UniqueUserIds(records)
    && forall i :: 0 <= i < |records| ==>
         Conforms(records[i]) && DistinctDeviceIds(records[i].devices) && WithinCapacity(records[i])
  }

  /** The response of a request handler together with the collection after it. */
  datatype StoreStep<+R> = StoreStep(response: R, records: seq<UserSession>)
}
