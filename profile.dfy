/**
 * The profile page's client state (app/Components/Profile/Profile.tsx):
 * how a fetched response lands in the state, the effects that start a
 * fetch or the polling interval, the device-logout handlers, and the
 * one-way `isLoggingOut` latch that stops new fetches once the user leaves.
 *
 * Every network reply is a parameter (`Outcome`): the reply body, or a
 * failure of `fetch` or of JSON parsing. The call to Auth0's `logout` is
 * recorded in `logoutRequested`.
 */
module Profile {
  import opened JsText
  import opened ApiTypes

  const FetchFailed: string := "Failed to fetch user data"
  const LogoutFailed: string := "Failed to logout device"
  const NetworkError: string := "Network error occurred"

  datatype Outcome = Received(response: ApiResponse) | NetworkFailure

  /** The request `logoutDevice` sends. */
  datatype LogoutRequest = LogoutRequest(userId: string, deviceId: string)

  /** The component's state cells, the latch ref, whether an interval is installed, and whether `logout` was called. */
  datatype UiState = UiState(
    backendUser: Option<ClientUser>,
    isLoading: bool,
    error: Option<string>,
    showLoggedOutModal: bool,
    isLoggingOut: bool,
    pollingActive: bool,
    logoutRequested: bool)

  const Initial: UiState := UiState(None, true, None, false, false, false, false)

  /** `response.message || fallback`. */
  function MessageOr(message: Option<string>, fallback: string): (m: string)
    ensures Truthy(message) ==> m == message.value
    ensures !Truthy(message) ==> m == fallback
  {
    if Truthy(message) then message.value else fallback
  }

  // ---------------------------------------------------------------------
  // fetchUserData
  // ---------------------------------------------------------------------

  /** `response.success && response.user`. */
  predicate UserDelivered(outcome: Outcome)
  {
    outcome.Received? && outcome.response.success && outcome.response.user.Some?
  }

  /** A reply without a user that carries the given error code. */
  predicate RefusedWith(outcome: Outcome, code: int)
  {
    outcome.Received? && !UserDelivered(outcome) && outcome.response.errorCode == Some(code)
  }

  /**
   * The part of `fetchUserData` after the reply arrives. The `catch` and
   * `finally` blocks consult the latch as it is now, which may have been
   * set while the request was in flight.
   */
  function Settle(s: UiState, outcome: Outcome): (t: UiState)
    // the latch, the interval and the logout call are not touched
    ensures t.isLoggingOut == s.isLoggingOut && t.pollingActive == s.pollingActive
    ensures t.logoutRequested == s.logoutRequested
    // loading ends unless the user is logging out
    ensures t.isLoading <==> s.isLoading && s.isLoggingOut
    // a network failure reports an error, unless logging out; the user stays
    ensures outcome.NetworkFailure? ==>
      && t.backendUser == s.backendUser && t.showLoggedOutModal == s.showLoggedOutModal
      && t.error == (if s.isLoggingOut then s.error else Some(NetworkError))
    // a successful reply with a user replaces the user and nothing else
    ensures UserDelivered(outcome) ==>
      && t.backendUser == outcome.response.user
      && t.error == s.error && t.showLoggedOutModal == s.showLoggedOutModal
    // 403: the user becomes the reply's (possibly none), the error its message
    ensures RefusedWith(outcome, 403) ==>
      && t.backendUser == outcome.response.user && t.error == outcome.response.message
      && t.showLoggedOutModal == s.showLoggedOutModal
    // 400: the logged-out dialog opens; user and error stay
    ensures RefusedWith(outcome, 400) ==>
      && t.showLoggedOutModal
      && t.backendUser == s.backendUser && t.error == s.error
    // anything else: the message, or the generic one
    ensures outcome.Received? && !UserDelivered(outcome) && !RefusedWith(outcome, 403) && !RefusedWith(outcome, 400) ==>
      && t.error == Some(MessageOr(outcome.response.message, FetchFailed))
      && t.backendUser == s.backendUser && t.showLoggedOutModal == s.showLoggedOutModal
  {
    var settled :=
      match outcome
      case NetworkFailure =>
        if s.isLoggingOut then s else s.(error := Some(NetworkError))
      case Received(response) =>
        if response.success && response.user.Some? then s.(backendUser := response.user)
        else if response.errorCode == Some(403) then s.(backendUser := response.user, error := response.message)
        else if response.errorCode == Some(400) then s.(showLoggedOutModal := true)
        else s.(error := Some(MessageOr(response.message, FetchFailed)));
    if s.isLoggingOut then settled else settled.(isLoading := false)
  }

  /** Whether `fetchUserData` goes past its first line. */
  predicate FetchProceeds(s: UiState, email: Option<string>)
  {
    Truthy(email) && !s.isLoggingOut
  }

  /** `fetchUserData` run to completion with no latch change while the request is in flight. */
  function FetchStep(s: UiState, email: Option<string>, outcome: Outcome): (t: UiState)
    // no email, or logging out: nothing at all happens
    ensures !FetchProceeds(s, email) ==> t == s
    // otherwise loading ends and the error is cleared before the reply is looked at
    ensures FetchProceeds(s, email) ==>
      && !t.isLoading && !t.isLoggingOut
      && t.pollingActive == s.pollingActive && t.logoutRequested == s.logoutRequested
    ensures FetchProceeds(s, email) && UserDelivered(outcome) ==>
      t.backendUser == outcome.response.user && t.error == None && t.showLoggedOutModal == s.showLoggedOutModal
    ensures FetchProceeds(s, email) && RefusedWith(outcome, 403) ==>
      && t.backendUser == outcome.response.user && t.error == outcome.response.message
      && t.showLoggedOutModal == s.showLoggedOutModal
    ensures FetchProceeds(s, email) && RefusedWith(outcome, 400) ==>
      t.showLoggedOutModal && t.backendUser == s.backendUser && t.error == None
    ensures FetchProceeds(s, email) && outcome.NetworkFailure? ==>
      t.error == Some(NetworkError) && t.backendUser == s.backendUser && t.showLoggedOutModal == s.showLoggedOutModal
    // any other reply: its message, or the generic one; user and dialog stay
    ensures FetchProceeds(s, email) && outcome.Received? && !UserDelivered(outcome)
      && !RefusedWith(outcome, 403) && !RefusedWith(outcome, 400)
      ==> && t.error == Some(MessageOr(outcome.response.message, FetchFailed))
          && t.backendUser == s.backendUser && t.showLoggedOutModal == s.showLoggedOutModal
  {
    if !FetchProceeds(s, email) then s
    else Settle(s.(isLoading := true, error := None), outcome)
  }

  /**
   * The race the `catch` and `finally` guards are written for: when the
   * latch is set while a request is in flight, its failure neither reports
   * an error nor ends the loading state, whatever the reply.
   */
  lemma LatchedSettleKeepsLoading(s: UiState, outcome: Outcome)
    requires s.isLoggingOut
    ensures Settle(s, outcome).isLoading == s.isLoading
    ensures outcome.NetworkFailure? ==> Settle(s, outcome) == s
  {
  }

  // ---------------------------------------------------------------------
  // the two effects
  // ---------------------------------------------------------------------

  /**
   * The effect on the Auth0 state: nothing while Auth0 loads, loading ends
   * when unauthenticated, and otherwise exactly a fetch (its own guard on
   * the email and the latch is the effect's guard too).
   */
  function AuthChangeStep(s: UiState, auth0Loading: bool, isAuthenticated: bool, email: Option<string>, outcome: Outcome): (t: UiState)
    ensures auth0Loading ==> t == s
    ensures !auth0Loading && !isAuthenticated ==> t == s.(isLoading := false)
    ensures !auth0Loading && isAuthenticated ==> t == FetchStep(s, email, outcome)
  {
    if auth0Loading then s
    else if !isAuthenticated then s.(isLoading := false)
    else if Truthy(email) && !s.isLoggingOut then FetchStep(s, email, outcome)
    else s
  }

  /**
   * The polling effect, re-run when its dependencies change: an interval is
   * installed exactly when authenticated, with an email, with the
   * logged-out dialog closed and the latch unset; otherwise the previous
   * one is cleared.
   */
  function SyncPollingStep(s: UiState, isAuthenticated: bool, email: Option<string>): (t: UiState)
    ensures t.pollingActive <==> isAuthenticated && Truthy(email) && !s.showLoggedOutModal && !s.isLoggingOut
    ensures t == s.(pollingActive := t.pollingActive)
  {
    s.(pollingActive := isAuthenticated && Truthy(email) && !s.showLoggedOutModal && !s.isLoggingOut)
  }

  /** One tick of the 60-second interval: a fetch, skipped once the latch is set. */
  function PollTickStep(s: UiState, email: Option<string>, outcome: Outcome): (t: UiState)
    ensures !s.pollingActive || s.isLoggingOut ==> t == s
    ensures s.pollingActive ==> t == FetchStep(s, email, outcome)
  {
    if s.pollingActive && !s.isLoggingOut then FetchStep(s, email, outcome) else s
  }

  // ---------------------------------------------------------------------
  // the logout handlers
  // ---------------------------------------------------------------------

  /** What `handleDeviceLogout` sends: the current user's id with the given device id. */
  function LogoutRequestOf(s: UiState, deviceId: string): (request: Option<LogoutRequest>)
    ensures request.Some? <==> s.backendUser.Some?
    ensures request.Some? ==> request.value.userId == s.backendUser.value.userId && request.value.deviceId == deviceId
  {
    if s.backendUser.Some? then Some(LogoutRequest(s.backendUser.value.userId, deviceId)) else None
  }

  /**
   * `handleDeviceLogout`: nothing without a user; otherwise the logout
   * reply, then on success a re-fetch, on failure an error; loading always
   * ends, whatever the latch.
   */
  function DeviceLogoutStep(s: UiState, email: Option<string>, logout: Outcome, refetch: Outcome): (t: UiState)
    ensures s.backendUser.None? ==> t == s
    ensures s.backendUser.Some? ==>
      && !t.isLoading && t.isLoggingOut == s.isLoggingOut
      && t.pollingActive == s.pollingActive && t.logoutRequested == s.logoutRequested
    // a refused logout reports the message, or the generic one, and keeps the user
    ensures s.backendUser.Some? && logout.Received? && !logout.response.success ==>
      t == s.(isLoading := false, error := Some(MessageOr(logout.response.message, LogoutFailed)))
    ensures s.backendUser.Some? && logout.NetworkFailure? ==>
      t == s.(isLoading := false, error := Some(NetworkError))
    // an accepted logout is followed by exactly the re-fetch, or by nothing when the fetch is skipped
    ensures s.backendUser.Some? && logout.Received? && logout.response.success ==>
      t == (if FetchProceeds(s, email) then FetchStep(s, email, refetch) else s.(isLoading := false))
  {
    if s.backendUser.None? then s
    else
      var loading := s.(isLoading := true);
      var after :=
        match logout
        case Received(response) =>
          if response.success then FetchStep(loading, email, refetch)
          else loading.(error := Some(MessageOr(response.message, LogoutFailed)))
        case NetworkFailure => loading.(error := Some(NetworkError));
      after.(isLoading := false)
  }

  /**
   * `handleLogoutCurrentDevice`: with a user, the latch is set first, so
   * the re-fetch that follows a successful removal never runs; then Auth0's
   * `logout` is called. The user and the logged-out dialog stay as they were.
   */
  function LogoutCurrentDeviceStep(s: UiState, email: Option<string>, logout: Outcome, refetch: Outcome): (t: UiState)
    ensures s.backendUser.None? ==> t == s
    ensures s.backendUser.Some? ==>
      && t.isLoggingOut && t.logoutRequested && !t.isLoading
      && t.backendUser == s.backendUser && t.showLoggedOutModal == s.showLoggedOutModal
      && t.pollingActive == s.pollingActive
    // the error as `handleDeviceLogout` leaves it; a success keeps it, since the re-fetch is skipped
    ensures s.backendUser.Some? && logout.Received? && !logout.response.success ==>
      t.error == Some(MessageOr(logout.response.message, LogoutFailed))
    ensures s.backendUser.Some? && logout.NetworkFailure? ==> t.error == Some(NetworkError)
    ensures s.backendUser.Some? && logout.Received? && logout.response.success ==> t.error == s.error
  {
    if s.backendUser.None? then s
    else DeviceLogoutStep(s.(isLoggingOut := true), email, logout, refetch).(logoutRequested := true)
  }

  /** The re-fetch reply is irrelevant to logging out the current device. */
  lemma LogoutCurrentDeviceIgnoresRefetch(s: UiState, email: Option<string>, logout: Outcome, refetch1: Outcome, refetch2: Outcome)
    ensures LogoutCurrentDeviceStep(s, email, logout, refetch1) == LogoutCurrentDeviceStep(s, email, logout, refetch2)
  {
  }

  /** `handleRelogin`: set the latch and call `logout`. */
  function ReloginStep(s: UiState): (t: UiState)
    ensures t.isLoggingOut && t.logoutRequested
    ensures t.(isLoggingOut := s.isLoggingOut, logoutRequested := s.logoutRequested) == s
  {
    s.(isLoggingOut := true, logoutRequested := true)
  }

  // ---------------------------------------------------------------------
  // sequences of events, and the latch
  // ---------------------------------------------------------------------

  /**
   * The page's events. `Reply` is the answer to a fetch started earlier,
   * landing on the state as it is by then: it is how a request still in
   * flight when the latch is set reaches the state.
   */
  datatype Event =
    | AuthChange(auth0Loading: bool, isAuthenticated: bool, email: Option<string>, outcome: Outcome)
    | PollingSync(isAuthenticated: bool, email: Option<string>)
    | Tick(email: Option<string>, outcome: Outcome)
    | Reply(outcome: Outcome)
    | DeviceLogout(email: Option<string>, logout: Outcome, refetch: Outcome)
    | LogoutCurrentDevice(email: Option<string>, logout: Outcome, refetch: Outcome)
    | Relogin

  function Step(s: UiState, e: Event): UiState
  {
    match e
    case AuthChange(loading, authenticated, email, outcome) => AuthChangeStep(s, loading, authenticated, email, outcome)
    case PollingSync(authenticated, email) => SyncPollingStep(s, authenticated, email)
    case Tick(email, outcome) => PollTickStep(s, email, outcome)
    case Reply(outcome) => Settle(s, outcome)
    case DeviceLogout(email, logout, refetch) => DeviceLogoutStep(s, email, logout, refetch)
    case LogoutCurrentDevice(email, logout, refetch) => LogoutCurrentDeviceStep(s, email, logout, refetch)
    case Relogin => ReloginStep(s)
  }

  function Run(s: UiState, events: seq<Event>): UiState
    decreases |events|
  {
    if events == [] then s else Run(Step(s, events[0]), events[1..])
  }

  /** No event in the sequence is the reply of a fetch already in flight. */
  predicate NoReplies(events: seq<Event>)
  {
    forall i :: 0 <= i < |events| ==> !events[i].Reply?
  }

  /**
   * One event never resets the latch, and once it is set no event installs
   * an interval. Only a reply to a fetch already in flight can still change
   * the user or the logged-out dialog: every other event leaves both alone.
   */
  lemma StepRespectsLatch(s: UiState, e: Event)
    ensures s.isLoggingOut ==> Step(s, e).isLoggingOut
    ensures s.isLoggingOut ==> (Step(s, e).pollingActive ==> s.pollingActive)
    ensures s.isLoggingOut && !e.Reply? ==>
      && Step(s, e).backendUser == s.backendUser
      && Step(s, e).showLoggedOutModal == s.showLoggedOutModal
  {
  }

  /**
   * The `try` block does not consult the latch: a 400 reply that arrives
   * after the latch is set still opens the logged-out dialog, and a
   * successful one still replaces the user.
   */
  lemma LatchedReplyStillLands(s: UiState, response: ApiResponse)
    requires s.isLoggingOut
    ensures RefusedWith(Received(response), 400) ==> Step(s, Reply(Received(response))).showLoggedOutModal
    ensures UserDelivered(Received(response)) ==> Step(s, Reply(Received(response))).backendUser == response.user
  {
  }

  /**
   * The latch is one-way, and once set no later sequence of effects, ticks,
   * replies or handlers installs an interval. Without replies to fetches
   * that were in flight, the user and the logged-out dialog also stay fixed.
   */
  lemma {:induction false} LatchSilencesRun(s: UiState, events: seq<Event>)
    requires s.isLoggingOut
    ensures Run(s, events).isLoggingOut
    ensures Run(s, events).pollingActive ==> s.pollingActive
    ensures NoReplies(events) ==>
      && Run(s, events).backendUser == s.backendUser
      && Run(s, events).showLoggedOutModal == s.showLoggedOutModal
    decreases |events|
  {
    if events != [] {
      StepRespectsLatch(s, events[0]);
      LatchSilencesRun(Step(s, events[0]), events[1..]);
      if NoReplies(events) {
        assert !events[0].Reply?;
        assert forall i :: 0 <= i < |events[1..]| ==> events[1..][i] == events[i + 1];
      }
    }
  }

  /**
   * Either logout handler sets the latch for good; when no earlier fetch is
   * still in flight, the user also stays fixed whatever follows.
   */
  lemma LogoutThenSilence(s: UiState, e: Event, events: seq<Event>)
    requires e.Relogin? || (e.LogoutCurrentDevice? && s.backendUser.Some?)
    ensures Run(s, [e] + events).isLoggingOut
    ensures NoReplies(events) ==> Run(s, [e] + events).backendUser == s.backendUser
  {
    assert ([e] + events)[1..] == events;
    LatchSilencesRun(Step(s, e), events);
  }

  // ---------------------------------------------------------------------
  // the component
  // ---------------------------------------------------------------------

  class ProfileComponent {
    var backendUser: Option<ClientUser>
    var isLoading: bool
    var error: Option<string>
    var showLoggedOutModal: bool
    var isLoggingOut: bool
    var pollingActive: bool
    var logoutRequested: bool

    function Snapshot(): UiState
      reads this
    {
      UiState(backendUser, isLoading, error, showLoggedOutModal, isLoggingOut, pollingActive, logoutRequested)
    }

    constructor ()
      ensures Snapshot() == Initial
    {
      backendUser := None;
      isLoading := true;
      error := None;
      showLoggedOutModal := false;
      isLoggingOut := false;
      pollingActive := false;
      logoutRequested := false;
    }

    /** `fetchUserData` up to its `await`: the guard, then loading on and the error cleared. */
    method BeginFetch(email: Option<string>) returns (started: bool)
      modifies this
      ensures started <==> FetchProceeds(old(Snapshot()), email)
      ensures Snapshot() == (if started then old(Snapshot()).(isLoading := true, error := None) else old(Snapshot()))
    {
      if !Truthy(email) || isLoggingOut {
        return false;
      }
      isLoading := true;
      error := None;
      started := true;
    }

    /** `fetchUserData` after its `await`, on the state as it is by then. */
    method FinishFetch(outcome: Outcome)
      modifies this
      ensures Snapshot() == Settle(old(Snapshot()), outcome)
      ensures old(isLoggingOut) == isLoggingOut
    {
      match outcome {
        case NetworkFailure =>
          if !isLoggingOut {
            error := Some(NetworkError);
          }
        case Received(response) =>
          if response.success && response.user.Some? {
            backendUser := response.user;
          } else if response.errorCode == Some(403) {
            backendUser := response.user;
            error := response.message;
          } else if response.errorCode == Some(400) {
            showLoggedOutModal := true;
          } else {
            error := Some(MessageOr(response.message, FetchFailed));
          }
      }
      if !isLoggingOut {
        isLoading := false;
      }
    }

    method FetchUserData(email: Option<string>, outcome: Outcome)
      modifies this
      ensures Snapshot() == FetchStep(old(Snapshot()), email, outcome)
    {
      var started := BeginFetch(email);
      if started {
        FinishFetch(outcome);
      }
    }

    method OnAuthChange(auth0Loading: bool, isAuthenticated: bool, email: Option<string>, outcome: Outcome)
      modifies this
      ensures Snapshot() == AuthChangeStep(old(Snapshot()), auth0Loading, isAuthenticated, email, outcome)
    {
      if auth0Loading {
        return;
      }
      if !isAuthenticated {
        isLoading := false;
        return;
      }
      if Truthy(email) && !isLoggingOut {
        FetchUserData(email, outcome);
      }
    }

    method SyncPolling(isAuthenticated: bool, email: Option<string>)
      modifies this
      ensures Snapshot() == SyncPollingStep(old(Snapshot()), isAuthenticated, email)
    {
      if !isAuthenticated || !Truthy(email) || showLoggedOutModal || isLoggingOut {
        pollingActive := false;
        return;
      }
      pollingActive := true;
    }

    method PollTick(email: Option<string>, outcome: Outcome)
      modifies this
      ensures Snapshot() == PollTickStep(old(Snapshot()), email, outcome)
    {
      if pollingActive && !isLoggingOut {
        FetchUserData(email, outcome);
      }
    }

    method HandleDeviceLogout(email: Option<string>, deviceId: string, logout: Outcome, refetch: Outcome)
      returns (request: Option<LogoutRequest>)
      modifies this
      ensures request == LogoutRequestOf(old(Snapshot()), deviceId)
      ensures Snapshot() == DeviceLogoutStep(old(Snapshot()), email, logout, refetch)
    {
      if backendUser.None? {
        return None;
      }
      isLoading := true;
      request := Some(LogoutRequest(backendUser.value.userId, deviceId));
      match logout {
        case Received(response) =>
          if response.success {
            FetchUserData(email, refetch);
          } else {
            error := Some(MessageOr(response.message, LogoutFailed));
          }
        case NetworkFailure =>
          error := Some(NetworkError);
      }
      isLoading := false;
    }

    /** `deviceId` is what `getDeviceInfo` returns at the time of the click. */
    method HandleLogoutCurrentDevice(email: Option<string>, deviceId: string, logout: Outcome, refetch: Outcome)
      returns (request: Option<LogoutRequest>)
      modifies this
      ensures request == LogoutRequestOf(old(Snapshot()), deviceId)
      ensures Snapshot() == LogoutCurrentDeviceStep(old(Snapshot()), email, logout, refetch)
    {
      if backendUser.None? {
        return None;
      }
      isLoggingOut := true;
      request := HandleDeviceLogout(email, deviceId, logout, refetch);
      logoutRequested := true;
    }

    method HandleRelogin()
      modifies this
      ensures Snapshot() == ReloginStep(old(Snapshot()))
    {
      isLoggingOut := true;
      logoutRequested := true;
    }
  }
}
