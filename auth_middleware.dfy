/**
 * The two request middlewares of server/middleware/auth.js: the profile
 * completeness gate and device admission with automatic oldest-first
 * eviction. Each is a function from the collection and the request fields
 * to the response and the collection afterwards; the class in
 * SessionStore performs them in place.
 */
module AuthMiddleware {
  import opened JsText
  import opened UserSessionSchema

  // ---------------------------------------------------------------------
  // checkUserProfile
  // ---------------------------------------------------------------------

  /** The partial record echoed back for an incomplete profile. */
  datatype ProfileView = ProfileView(userId: string, email: string, name: string, phoneNumber: string)

  datatype ProfileCheck =
    | UserIdRequired                   // 400, 'User ID is required'
    | ProfileUserNotFound              // 404, 'User not found', requiresProfile
    | ProfileIncomplete(view: ProfileView)  // 200, success false, 'Profile incomplete'
    | ProfileComplete(user: UserSession)    // next() with req.user set

  /** `s || ''` for an optional string field. */
  function OrEmpty(s: Option<string>): (r: string)
    ensures Truthy(s) ==> r == s.value
    ensures !Truthy(s) ==> r == ""
  {
    if s.Some? then s.value else ""
  }

  /**
   * The completeness gate. It never changes the collection (it returns no
   * new one), and passes the request on only for a found record whose
   * `name` and `phoneNumber` are both truthy.
   */
  function CheckUserProfile(records: seq<UserSession>, userId: Option<string>): (r: ProfileCheck)
    ensures r.UserIdRequired? <==> !Truthy(userId)
    ensures r.ProfileUserNotFound? <==> Truthy(userId) && FindByUserId(records, userId) == -1
    ensures r.ProfileIncomplete? <==>
      && Truthy(userId)
      && FindByUserId(records, userId) != -1
      && var u := records[FindByUserId(records, userId)];
         !Truthy(u.name) || !Truthy(u.phoneNumber)
    ensures r.ProfileIncomplete? ==>
      var u := records[FindByUserId(records, userId)];
      && r.view.userId == u.userId && r.view.email == u.email
      && (Truthy(u.name) ==> r.view.name == u.name.value)
      && (!Truthy(u.name) ==> r.view.name == "")
      && (Truthy(u.phoneNumber) ==> r.view.phoneNumber == u.phoneNumber.value)
      && (!Truthy(u.phoneNumber) ==> r.view.phoneNumber == "")
    ensures r.ProfileComplete? ==>
      && r.user == records[FindByUserId(records, userId)]
      && Some(r.user.userId) == userId
      && Truthy(r.user.name) && Truthy(r.user.phoneNumber)
  {
    if !Truthy(userId) then UserIdRequired
    else
      var k := FindByUserId(records, userId);
      if k == -1 then ProfileUserNotFound
      else
        var u := records[k];
        if !Truthy(u.name) || !Truthy(u.phoneNumber) then
          ProfileIncomplete(ProfileView(u.userId, u.email, OrEmpty(u.name), OrEmpty(u.phoneNumber)))
        else ProfileComplete(u)
  }

  // ---------------------------------------------------------------------
  // manageDevices
  // ---------------------------------------------------------------------

  /** `devices.findIndex(device => device.deviceId === deviceId)`. */
  function FindDeviceIndex(devices: seq<Device>, deviceId: string): (r: int)
    ensures -1 <= r < |devices|
    ensures r == -1 <==> forall j :: 0 <= j < |devices| ==> devices[j].deviceId != deviceId
    ensures r != -1 ==> devices[r].deviceId == deviceId
    ensures r != -1 ==> forall j :: 0 <= j < r ==> devices[j].deviceId != deviceId
  {
    FindIndex(devices, (d: Device) => d.deviceId == deviceId)
  }

  /** A device list after admission, and the entry evicted to make room, if any. */
  datatype Admission = Admission(devices: seq<Device>, loggedOut: Option<Device>)

  /**
   * The admission rule applied to one account's device list: a known id is
   * renamed where it stands; an unknown one is appended while the list is
   * below capacity; otherwise the oldest entry is shifted off and reported,
   * and the new one is appended.
   */
  function Admit(devices: seq<Device>, maxDevices: int, deviceId: string, deviceName: string): (r: Admission)
    // whatever the case, the device ends up listed, under the new name
    ensures FindDeviceIndex(r.devices, deviceId) != -1
    ensures r.devices[FindDeviceIndex(r.devices, deviceId)] == Device(deviceId, deviceName)
    // known device: only its name changes
    ensures FindDeviceIndex(devices, deviceId) != -1 ==>
      && |r.devices| == |devices|
      && FindDeviceIndex(r.devices, deviceId) == FindDeviceIndex(devices, deviceId)
      && (forall j :: 0 <= j < |devices| && j != FindDeviceIndex(devices, deviceId) ==> r.devices[j] == devices[j])
      && r.loggedOut == None
    // new device, room left: appended at the end
    ensures FindDeviceIndex(devices, deviceId) == -1 && |devices| < maxDevices ==>
      && r.devices == devices + [Device(deviceId, deviceName)]
      && r.loggedOut == None
    // new device, list full: the oldest entry is evicted and reported
    ensures FindDeviceIndex(devices, deviceId) == -1 && |devices| >= maxDevices && devices != [] ==>
      && r.devices == devices[1..] + [Device(deviceId, deviceName)]
      && r.loggedOut == Some(devices[0])
    // `shift` on an empty list removes nothing and reports nothing
    ensures FindDeviceIndex(devices, deviceId) == -1 && |devices| >= maxDevices && devices == [] ==>
      && r.devices == [Device(deviceId, deviceName)]
      && r.loggedOut == None
  {
    var i := FindDeviceIndex(devices, deviceId);
    if i != -1 then
      var renamed := devices[i := devices[i].(deviceName := deviceName)];
      assert forall j :: 0 <= j < i ==> renamed[j].deviceId != deviceId;
      assert renamed[i] == Device(deviceId, deviceName);
      assert FindDeviceIndex(renamed, deviceId) == i;
      Admission(renamed, None)
    else
      var kept := if |devices| >= maxDevices && devices != [] then devices[1..] else devices;
      var evicted := if |devices| >= maxDevices && devices != [] then Some(devices[0]) else None;
      var pushed := kept + [Device(deviceId, deviceName)];
      assert forall j :: 0 <= j < |kept| ==> pushed[j].deviceId != deviceId by {
        forall j | 0 <= j < |kept| ensures pushed[j].deviceId != deviceId {
          var from := if |devices| >= maxDevices && devices != [] then j + 1 else j;
          assert pushed[j] == devices[from];
        }
      }
      assert pushed[|kept|].deviceId == deviceId;
      assert FindDeviceIndex(pushed, deviceId) != -1;
      Admission(pushed, evicted)
  }

  /**
   * The capacity bound: a list within a capacity of at least one stays
   * within it.
   */
  lemma AdmitWithinCapacity(devices: seq<Device>, maxDevices: int, deviceId: string, deviceName: string)
    requires 1 <= maxDevices && |devices| <= maxDevices
    ensures |Admit(devices, maxDevices, deviceId, deviceName).devices| <= maxDevices
  {
  }

  /** Why the bound needs a capacity of at least one: `shift` on `[]` frees nothing. */
  lemma AdmitOverflowsZeroCapacity(deviceId: string, deviceName: string)
    ensures |Admit([], 0, deviceId, deviceName).devices| == 1
  {
  }

  /** Renaming an entry keeps its id, so distinct ids stay distinct. */
  lemma RenameKeepsIdsDistinct(devices: seq<Device>, i: nat, deviceName: string)
    requires i < |devices| && DistinctDeviceIds(devices)
    ensures DistinctDeviceIds(devices[i := devices[i].(deviceName := deviceName)])
  {
    var r := devices[i := devices[i].(deviceName := deviceName)];
    assert forall j :: 0 <= j < |r| ==> r[j].deviceId == devices[j].deviceId;
  }

  /** Dropping the oldest entry keeps ids distinct. */
  lemma ShiftKeepsIdsDistinct(devices: seq<Device>)
    requires devices != [] && DistinctDeviceIds(devices)
    ensures DistinctDeviceIds(devices[1..])
  {
    assert forall j :: 0 <= j < |devices| - 1 ==> devices[1..][j] == devices[j + 1];
  }

  /** Appending an id that is not listed keeps ids distinct. */
  lemma PushKeepsIdsDistinct(devices: seq<Device>, d: Device)
    requires DistinctDeviceIds(devices)
    requires forall j :: 0 <= j < |devices| ==> devices[j].deviceId != d.deviceId
    ensures DistinctDeviceIds(devices + [d])
  {
    var r := devices + [d];
    assert forall j :: 0 <= j < |devices| ==> r[j] == devices[j];
  }

  /** Appends happen only for an unlisted id, so device ids stay pairwise distinct. */
  lemma AdmitKeepsIdsDistinct(devices: seq<Device>, maxDevices: int, deviceId: string, deviceName: string)
    requires DistinctDeviceIds(devices)
    ensures DistinctDeviceIds(Admit(devices, maxDevices, deviceId, deviceName).devices)
  {
    var i := FindDeviceIndex(devices, deviceId);
    if i != -1 {
      RenameKeepsIdsDistinct(devices, i, deviceName);
      assert Admit(devices, maxDevices, deviceId, deviceName).devices == devices[i := devices[i].(deviceName := deviceName)];
    } else if |devices| >= maxDevices && devices != [] {
      ShiftKeepsIdsDistinct(devices);
      assert forall j :: 0 <= j < |devices| - 1 ==> devices[1..][j] == devices[j + 1];
      PushKeepsIdsDistinct(devices[1..], Device(deviceId, deviceName));
    } else {
      PushKeepsIdsDistinct(devices, Device(deviceId, deviceName));
    }
  }

  /**
   * With distinct ids, the evicted entry is really gone: its id is no longer
   * in the list, so that device is unknown to any later admission.
   */
  lemma EvictedDeviceIsUnlisted(devices: seq<Device>, maxDevices: int, deviceId: string, deviceName: string)
    requires DistinctDeviceIds(devices)
    requires Admit(devices, maxDevices, deviceId, deviceName).loggedOut.Some?
    ensures
      var r := Admit(devices, maxDevices, deviceId, deviceName);
      FindDeviceIndex(r.devices, r.loggedOut.value.deviceId) == -1
  {
    var r := Admit(devices, maxDevices, deviceId, deviceName);
    var gone := devices[0].deviceId;
    assert FindDeviceIndex(devices, deviceId) == -1;
    forall j | 0 <= j < |r.devices| ensures r.devices[j].deviceId != gone {
      if j < |r.devices| - 1 {
        assert r.devices[j] == devices[j + 1];
      } else {
        assert r.devices[j].deviceId == deviceId;
      }
    }
  }

  /** Re-admitting a device just admitted renames it in place: the list keeps its length. */
  lemma ReadmitIsRename(devices: seq<Device>, maxDevices: int, deviceId: string, name1: string, name2: string)
    ensures
      var once := Admit(devices, maxDevices, deviceId, name1).devices;
      var twice := Admit(once, maxDevices, deviceId, name2);
      && |twice.devices| == |once|
      && twice.loggedOut == None
      && FindDeviceIndex(twice.devices, deviceId) == FindDeviceIndex(once, deviceId)
  {
  }

  /** A run of admissions on one list, in request order. */
  function AdmitAll(devices: seq<Device>, maxDevices: int, requests: seq<Device>): (r: seq<Device>)
    decreases |requests|
  {
    if requests == [] then devices
    else
      var last := requests[|requests| - 1];
      Admit(AdmitAll(devices, maxDevices, requests[..|requests| - 1]), maxDevices, last.deviceId, last.deviceName).devices
  }

  /**
   * For every sequence of admissions on one account: the list never exceeds
   * a capacity of at least one, and its ids stay pairwise distinct.
   */
  lemma {:induction false} AdmitAllKeepsInvariant(devices: seq<Device>, maxDevices: int, requests: seq<Device>)
    requires 1 <= maxDevices && |devices| <= maxDevices && DistinctDeviceIds(devices)
    ensures |AdmitAll(devices, maxDevices, requests)| <= maxDevices
    ensures DistinctDeviceIds(AdmitAll(devices, maxDevices, requests))
    decreases |requests|
  {
    if requests != [] {
      var before := AdmitAll(devices, maxDevices, requests[..|requests| - 1]);
      AdmitAllKeepsInvariant(devices, maxDevices, requests[..|requests| - 1]);
      var last := requests[|requests| - 1];
      AdmitWithinCapacity(before, maxDevices, last.deviceId, last.deviceName);
      AdmitKeepsIdsDistinct(before, maxDevices, last.deviceId, last.deviceName);
    }
  }

  datatype DevicesOutcome =
    | DeviceFieldsRequired       // 400, 'Device ID and name are required'
    | DeviceUserNotFound         // 404, 'User not found'
    | DeviceAdmitted(user: UserSession, deviceLoggedOut: Option<Device>)  // next() with req.user, req.deviceLoggedOut

  /**
   * The whole middleware on the collection: the 400 and 404 answers leave it
   * as it was; otherwise the first record with that `userId` is saved back
   * with its device list admitted, and nothing else changes.
   */
  function ManageDevicesStep(records: seq<UserSession>, userId: Option<string>,
                             deviceId: Option<string>, deviceName: Option<string>): (r: StoreStep<DevicesOutcome>)
    ensures !Truthy(deviceId) || !Truthy(deviceName) ==> r == StoreStep(DeviceFieldsRequired, records)
    ensures Truthy(deviceId) && Truthy(deviceName) && FindByUserId(records, userId) == -1 ==>
      r == StoreStep(DeviceUserNotFound, records)
    ensures r.response.DeviceAdmitted? <==>
      Truthy(deviceId) && Truthy(deviceName) && FindByUserId(records, userId) != -1
    ensures r.response.DeviceAdmitted? ==>
      var k := FindByUserId(records, userId);
      var a := Admit(records[k].devices, records[k].maxDevices, deviceId.value, deviceName.value);
      && r.response.user == records[k].(devices := a.devices)
      && r.response.deviceLoggedOut == a.loggedOut
      && |r.records| == |records|
      && r.records[k] == r.response.user
      && (forall j :: 0 <= j < |records| && j != k ==> r.records[j] == records[j])
  {
    if !Truthy(deviceId) || !Truthy(deviceName) then StoreStep(DeviceFieldsRequired, records)
    else
      var k := FindByUserId(records, userId);
      if k == -1 then StoreStep(DeviceUserNotFound, records)
      else
        var a := Admit(records[k].devices, records[k].maxDevices, deviceId.value, deviceName.value);
        var saved := records[k].(devices := a.devices);
        StoreStep(DeviceAdmitted(saved, a.loggedOut), records[k := saved])
  }

  /** Device admission keeps the registry invariant: capacity, distinct ids, schema, unique userIds. */
  lemma ManageDevicesKeepsInvariant(records: seq<UserSession>, userId: Option<string>,
                                    deviceId: Option<string>, deviceName: Option<string>)
    requires RegistryInvariant(records)
    ensures RegistryInvariant(ManageDevicesStep(records, userId, deviceId, deviceName).records)
  {
    var r := ManageDevicesStep(records, userId, deviceId, deviceName);
    if r.response.DeviceAdmitted? {
      var k := FindByUserId(records, userId);
      var u := records[k];
      var a := Admit(u.devices, u.maxDevices, deviceId.value, deviceName.value);
      AdmitWithinCapacity(u.devices, u.maxDevices, deviceId.value, deviceName.value);
      AdmitKeepsIdsDistinct(u.devices, u.maxDevices, deviceId.value, deviceName.value);
      forall j | 0 <= j < |a.devices| ensures DeviceConforms(a.devices[j]) {
        var i := FindDeviceIndex(u.devices, deviceId.value);
        if i != -1 {
          assert a.devices[j] == u.devices[j] || a.devices[j] == Device(deviceId.value, deviceName.value);
        } else if |u.devices| >= u.maxDevices && u.devices != [] {
          if j < |a.devices| - 1 {
            assert a.devices[j] == u.devices[j + 1];
          }
        } else if j < |a.devices| - 1 {
          assert a.devices[j] == u.devices[j];
        }
      }
      assert Conforms(r.records[k]);
    }
  }
}
