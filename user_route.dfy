/**
 * The `GET /` handler of server/routes/user.js: find the record for an
 * email, or create one with a fresh `userId` and empty profile fields, and
 * answer with a projection of it.
 */
module UserRoute {
  import opened JsText
  import opened UserSessionSchema

  /** The `user` object of the response; `maxDevices` is not part of it. */
  datatype UserView = UserView(
    userId: string,
    email: string,
    name: Option<string>,
    phoneNumber: Option<string>,
    devices: seq<Device>)

  datatype UserResponse =
    | EmailRequired           // 400, 'Email is required'
    | UserDetails(user: UserView)  // success, 'User details'
    | ServerError             // 500, 'Server error' (creation rejected by the schema or the unique index)

  function Project(u: UserSession): UserView
  {
    UserView(u.userId, u.email, u.name, u.phoneNumber, u.devices)
  }

  /** The response shows every field of the record except its capacity. */
  lemma ProjectHidesOnlyCapacity(u: UserSession, w: UserSession)
    ensures Project(u) == Project(w) <==> u.(maxDevices := w.maxDevices) == w
  {
  }

  /** The document `create` receives for an unseen email. */
  function NewSessionFor(email: string, freshId: string): NewSession
  {
    NewSession(Some(freshId), Some(email), None, None, [], None)
  }

  /**
   * The handler on the collection. `freshId` stands for the value `uuidv4()`
   * returns. The `deviceId` and `deviceName` query fields are not inputs:
   * the handler ignores them.
   */
  function GetUserStep(records: seq<UserSession>, email: Option<string>, freshId: string): (r: StoreStep<UserResponse>)
    // no email: 400, nothing looked up or created
    ensures !Truthy(email) ==> r == StoreStep(EmailRequired, records)
    // with an email the user is always answered, unless a new record cannot take the fresh id
    ensures r.response.UserDetails? <==>
      Truthy(email) &&
      (FindByEmail(records, email.value) != -1 ||
       (freshId != "" && forall i :: 0 <= i < |records| ==> records[i].userId != freshId))
    // a record with that email: it is answered, and nothing is created
    ensures Truthy(email) && FindByEmail(records, email.value) != -1 ==>
      r == StoreStep(UserDetails(Project(records[FindByEmail(records, email.value)])), records)
    // none: exactly one record is added, with the fresh id, the email, no name, no phone, no devices
    ensures Truthy(email) && FindByEmail(records, email.value) == -1 && r.response.UserDetails? ==>
      && r.records == records + [UserSession(freshId, email.value, None, None, [], DefaultMaxDevices)]
      && r.response.user == UserView(freshId, email.value, None, None, [])
    // creation fails only on an empty or taken id, and then nothing changes
    ensures r.response.ServerError? <==>
      Truthy(email) && FindByEmail(records, email.value) == -1 &&
      (freshId == "" || exists i :: 0 <= i < |records| && records[i].userId == freshId)
    ensures r.response.ServerError? ==> r.records == records
    // no device list is ever changed
    ensures |records| <= |r.records| && forall i :: 0 <= i < |records| ==> r.records[i] == records[i]
  {
    if !Truthy(email) then StoreStep(EmailRequired, records)
    else
      var k := FindByEmail(records, email.value);
      if k != -1 then StoreStep(UserDetails(Project(records[k])), records)
      else
        match Insert(records, NewSessionFor(email.value, freshId))
        case None => StoreStep(ServerError, records)
        case Some(created) => StoreStep(UserDetails(Project(created[|created| - 1])), created)
  }

  /**
   * Two requests in a row for one email: the second finds what the first
   * found or created, answers with the same `userId`, changes nothing, and
   * the email then belongs to at least one record, the first of which is
   * the one answered. When the email was new, the created record is its only one.
   */
  lemma GetUserTwice(records: seq<UserSession>, email: string, id1: string, id2: string)
    requires email != ""
    ensures
      var first := GetUserStep(records, Some(email), id1);
      var second := GetUserStep(first.records, Some(email), id2);
      first.response.UserDetails? ==>
        && second == StoreStep(first.response, first.records)
        && second.response.user.userId == first.response.user.userId
    ensures
      var first := GetUserStep(records, Some(email), id1);
      FindByEmail(records, email) == -1 && first.response.UserDetails? ==>
        forall i :: 0 <= i < |first.records| && first.records[i].email == email ==> i == |records|
  {
    var first := GetUserStep(records, Some(email), id1);
    if first.response.UserDetails? && FindByEmail(records, email) == -1 {
      var created := first.records;
      assert created[|records|].email == email;
      assert FindByEmail(created, email) == |records|;
    }
  }

  /** Records created by the handler keep the registry invariant. */
  lemma GetUserKeepsInvariant(records: seq<UserSession>, email: Option<string>, freshId: string)
    requires RegistryInvariant(records)
    ensures RegistryInvariant(GetUserStep(records, email, freshId).records)
  {
    var r := GetUserStep(records, email, freshId);
    if Truthy(email) && FindByEmail(records, email.value) == -1 && r.response.UserDetails? {
      var created := r.records;
      assert created[|records|] == UserSession(freshId, email.value, None, None, [], DefaultMaxDevices);
      assert UniqueUserIds(created);
    }
  }
}
