/**
 * The session collection as the server mutates it: `manageDevices` edits a
 * looked-up record's device list in place (index assignment, `shift`,
 * `push`) and saves it back; `GET /` inserts a record when none has the
 * email. Saving replaces the whole record.
 */
module SessionStore {
  import opened JsText
  import opened UserSessionSchema
  import AuthMiddleware
  import UserRoute

  class Store {
    var records: seq<UserSession>

    ghost predicate Valid()
      reads this
    {
      RegistryInvariant(records)
    }

    constructor ()
      ensures records == [] && Valid()
    {
      records := [];
    }

    /** `manageDevices`, step by step on the found record's device list. */
    method ManageDevices(userId: Option<string>, deviceId: Option<string>, deviceName: Option<string>)
      returns (r: AuthMiddleware.DevicesOutcome)
      modifies this
      ensures r == AuthMiddleware.ManageDevicesStep(old(records), userId, deviceId, deviceName).response
      ensures records == AuthMiddleware.ManageDevicesStep(old(records), userId, deviceId, deviceName).records
      ensures old(Valid()) ==> Valid()
    {
      ghost var before := records;
      if !Truthy(deviceId) || !Truthy(deviceName) {
        return AuthMiddleware.DeviceFieldsRequired;
      }
      var k := FindByUserId(records, userId);
      if k == -1 {
        return AuthMiddleware.DeviceUserNotFound;
      }
      var user := records[k];
      var devices := user.devices;
      var removed: Option<Device> := None;
      var i := AuthMiddleware.FindDeviceIndex(devices, deviceId.value);
      if i != -1 {
        devices := devices[i := devices[i].(deviceName := deviceName.value)];
      } else if |devices| >= user.maxDevices {
        if |devices| > 0 {
          removed := Some(devices[0]);
          devices := devices[1..];
        }
        devices := devices + [Device(deviceId.value, deviceName.value)];
      } else {
        devices := devices + [Device(deviceId.value, deviceName.value)];
      }
      user := user.(devices := devices);
      records := records[k := user];
      r := AuthMiddleware.DeviceAdmitted(user, removed);
      if RegistryInvariant(before) {
        AuthMiddleware.ManageDevicesKeepsInvariant(before, userId, deviceId, deviceName);
      }
    }

    /** `GET /`: look the email up, creating its record on first sight. */
    method GetUser(email: Option<string>, freshId: string) returns (r: UserRoute.UserResponse)
      modifies this
      ensures r == UserRoute.GetUserStep(old(records), email, freshId).response
      ensures records == UserRoute.GetUserStep(old(records), email, freshId).records
      ensures old(Valid()) ==> Valid()
    {
      ghost var before := records;
      if !Truthy(email) {
        return UserRoute.EmailRequired;
      }
      var k := FindByEmail(records, email.value);
      if k == -1 {
        var created := Insert(records, UserRoute.NewSessionFor(email.value, freshId));
        if created.None? {
          return UserRoute.ServerError;
        }
        records := created.value;
        k := |records| - 1;
      }
      r := UserRoute.UserDetails(UserRoute.Project(records[k]));
      if RegistryInvariant(before) {
        UserRoute.GetUserKeepsInvariant(before, email, freshId);
      }
    }
  }
}
