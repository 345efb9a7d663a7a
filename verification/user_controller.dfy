/** The user handlers: registration, one-time-code issue and verification, the login outcome
    and the push-token swap. Each handler is one atomic step over the `users` collection; the
    request body is a datatype, the clock is the parameter `now` (milliseconds), and the reply
    is the HTTP status with the kind of message sent. */
module UserController {
  import opened Js
  import opened Query
  import opened UserModel

  /** The code every `sendOTP` issues. */
  const OtpCode: string := "9999"

  /** How long an issued code stays valid: 30 seconds. */
  const OtpLifetimeMs: int := 30000

  datatype UserMessage =
    | AllFieldsExceptEmailRequired
    | DeviceIdAlreadyRegistered
    | UserRegistered
    | MobileAndCountryCodeRequired
    | UserNotFound
    | OtpSent
    | MobileAndOtpRequired
    | InvalidOtp
    | OtpExpired
    | OtpVerified
    | AuthenticationFieldsRequired
    | LoggedIn
    | AuthenticationFailed
    | TokenFieldsRequired
    | OldTokenMismatch
    | TokenUpdated

  /** Status, message, and the `user` or `otp` the body carries besides the message. */
  datatype UserReply = UserReply(status: nat, message: UserMessage, user: Option<User>, otp: Option<string>)

  function Refuse(status: nat, message: UserMessage): UserReply {
    UserReply(status, message, None, None)
  }

  datatype RegisterRequest = RegisterRequest(
    mobileNumber: Option<string>, countryCode: Option<string>, email: Option<string>,
    deviceId: Option<string>, firebaseToken: Option<string>, timestamp: Option<int>)

  datatype SendOtpRequest = SendOtpRequest(mobileNumber: Option<string>, countryCode: Option<string>)

  datatype VerifyOtpRequest = VerifyOtpRequest(
    mobileNumber: Option<string>, otp: Option<string>, firebaseToken: Option<string>)

  /** `isAuthenticated` is None when the body's value is not a boolean. */
  datatype AuthenticateRequest = AuthenticateRequest(
    mobileNumber: Option<string>, deviceId: Option<string>, isAuthenticated: Option<bool>)

  datatype TokenRequest = TokenRequest(
    deviceId: Option<string>, oldFirebaseToken: Option<string>, newFirebaseToken: Option<string>)

  // ---------------------------------------------------------------- registerUser

  /** Every field but `email` is present and truthy. */
  predicate RegisterFieldsPresent(req: RegisterRequest) {
    Truthy(req.mobileNumber) && Truthy(req.countryCode) && Truthy(req.deviceId) &&
    Truthy(req.firebaseToken) && TruthyNumber(req.timestamp)
  }

  /** The document registration creates from the request. */
  function Registered(req: RegisterRequest): User {
    NewUser(req.mobileNumber, req.countryCode, req.email, req.deviceId, req.firebaseToken, req.timestamp)
  }

  /** Some stored user has device id `d`. */
  predicate DeviceTaken(docs: seq<User>, d: Option<string>) {
    exists i :: 0 <= i < |docs| && docs[i].deviceId == d
  }

  /** Appending a user whose device id no stored user has keeps device ids unique. */
  lemma RegistrationKeepsDeviceIdsUnique(docs: seq<User>, u: User)
    requires DeviceIdsUnique(docs)
    requires !DeviceTaken(docs, u.deviceId)
    ensures DeviceIdsUnique(docs + [u])
  {
  }

  /** Saving a user back with its device id untouched keeps device ids unique. */
  lemma SaveKeepsDeviceIdsUnique(docs: seq<User>, i: nat, v: User)
    requires i < |docs| && v.deviceId == docs[i].deviceId
    requires DeviceIdsUnique(docs)
    ensures DeviceIdsUnique(docs[i := v])
  {
  }

  /** The document registration builds never passes the user schema as declared: it has no
      `deviceName`, `websiteId` or `websiteName`, all three required. */
  lemma RegisteredUserFailsSchema(req: RegisterRequest)
    ensures !ValidUser(Registered(req))
  {
  }

  method RegisterUser(users: UserCollection, req: RegisterRequest) returns (reply: UserReply)
    modifies users
    ensures !RegisterFieldsPresent(req) ==>
              reply == Refuse(400, AllFieldsExceptEmailRequired) && users.docs == old(users.docs)
    ensures RegisterFieldsPresent(req) && DeviceTaken(old(users.docs), req.deviceId) ==>
              reply == Refuse(400, DeviceIdAlreadyRegistered) && users.docs == old(users.docs)
    ensures RegisterFieldsPresent(req) && !DeviceTaken(old(users.docs), req.deviceId) ==>
              reply == UserReply(201, UserRegistered, Some(Registered(req)), None) &&
              users.docs == old(users.docs) + [Registered(req)]
    ensures DeviceIdsUnique(old(users.docs)) ==> DeviceIdsUnique(users.docs)
  {
    if !RegisterFieldsPresent(req) {
      return Refuse(400, AllFieldsExceptEmailRequired);
    }
    var existing := FindFirst(users.docs, DeviceIs(req.deviceId));
    if existing.Some? {
      return Refuse(400, DeviceIdAlreadyRegistered);
    }
    var user := Registered(req);
    assert !DeviceTaken(users.docs, user.deviceId);
    if DeviceIdsUnique(users.docs) {
      RegistrationKeepsDeviceIdsUnique(users.docs, user);
    }
    users.Insert(user);
    reply := UserReply(201, UserRegistered, Some(user), None);
  }

  // ---------------------------------------------------------------- sendOTP

  /** The user after a code is issued at `now`: the fixed code, an expiry 30 seconds later, and
      verification reset. */
  function IssueOtp(u: User, now: int): User {
    u.(otp := Some(OtpCode), otpExpiration := Some(now + OtpLifetimeMs), isVerified := false)
  }

  method SendOtp(users: UserCollection, req: SendOtpRequest, now: int) returns (reply: UserReply)
    modifies users
    ensures !Truthy(req.mobileNumber) || !Truthy(req.countryCode) ==>
              reply == Refuse(400, MobileAndCountryCodeRequired) && users.docs == old(users.docs)
    ensures Truthy(req.mobileNumber) && Truthy(req.countryCode) ==>
              var found := FindFirst(old(users.docs), MobileAndCountryAre(req.mobileNumber, req.countryCode));
              (found.None? ==> reply == Refuse(404, UserNotFound) && users.docs == old(users.docs)) &&
              (found.Some? ==>
                 users.docs == old(users.docs)[found.value := IssueOtp(old(users.docs)[found.value], now)] &&
                 reply == UserReply(200, OtpSent, None, Some(OtpCode)))
    ensures DeviceIdsUnique(old(users.docs)) ==> DeviceIdsUnique(users.docs)
    ensures AllUsersValid(old(users.docs)) ==> AllUsersValid(users.docs)
  {
    if !Truthy(req.mobileNumber) || !Truthy(req.countryCode) {
      return Refuse(400, MobileAndCountryCodeRequired);
    }
    var found := FindFirst(users.docs, MobileAndCountryAre(req.mobileNumber, req.countryCode));
    if found.None? {
      return Refuse(404, UserNotFound);
    }
    var i := found.value;
    var user := users.docs[i];
    user := user.(otp := Some(OtpCode));
    user := user.(otpExpiration := Some(now + OtpLifetimeMs));
    user := user.(isVerified := false);
    if DeviceIdsUnique(users.docs) {
      SaveKeepsDeviceIdsUnique(users.docs, i, user);
    }
    if AllUsersValid(users.docs) {
      UpdatesKeepUserValid(users.docs[i], now, None, None, "");
      SaveKeepsAllUsersValid(users.docs, i, user);
    }
    users.Save(i, user);
    reply := UserReply(200, OtpSent, None, user.otp);
  }

  // ---------------------------------------------------------------- verifyOTP

  datatype OtpVerdict = Mismatch | Expired | Accepted

  /** `new Date() > otpExpiration`; a comparison with an absent expiry is false. */
  predicate PastExpiry(now: int, expiration: Option<int>) {
    expiration.Some? && now > expiration.value
  }

  /** The two checks of verification, in the handler's order: the code first, then expiry. */
  function CheckOtp(u: User, code: string, now: int): (v: OtpVerdict)
    ensures v == Mismatch <==> u.otp != Some(code)
    ensures v == Expired <==> u.otp == Some(code) && u.otpExpiration.Some? && now > u.otpExpiration.value
    ensures v == Accepted <==> u.otp == Some(code) && (u.otpExpiration.None? || now <= u.otpExpiration.value)
  {
    if u.otp != Some(code) then Mismatch
    else if PastExpiry(now, u.otpExpiration) then Expired
    else Accepted
  }

  /** The user after a successful verification: verified, the push token replaced only by a
      truthy new one, and the code cleared. */
  function ConsumeOtp(u: User, firebaseToken: Option<string>): User {
    u.(isVerified := true,
       firebaseToken := if Truthy(firebaseToken) then firebaseToken else u.firebaseToken,
       otp := None)
  }

  /** A freshly issued code is accepted up to and including its expiry instant, and refused as
      expired afterwards. */
  lemma IssuedCodeWindow(u: User, issuedAt: int, t: int)
    ensures CheckOtp(IssueOtp(u, issuedAt), OtpCode, t) ==
            if t <= issuedAt + OtpLifetimeMs then Accepted else Expired
  {
  }

  /** The expiry boundary is inclusive: the right code at exactly the expiry instant passes,
      one millisecond later it is expired. */
  lemma ExpiryBoundaryInclusive(u: User, code: string, expiry: int)
    requires u.otp == Some(code) && u.otpExpiration == Some(expiry)
    ensures CheckOtp(u, code, expiry) == Accepted
    ensures CheckOtp(u, code, expiry + 1) == Expired
  {
  }

  /** A wrong code is reported as invalid whatever the clock says: the code is checked first. */
  lemma WrongCodeReportedBeforeExpiry(u: User, code: string, now: int)
    requires u.otp != Some(code)
    ensures CheckOtp(u, code, now) == Mismatch
  {
  }

  /** After a successful verification the same lookup finds the same user and any code,
      including the one just used, is refused as invalid. */
  lemma VerifiedCodeCannotBeReplayed(docs: seq<User>, m: Option<string>, token: Option<string>,
                                     code: string, later: int)
    requires FindFirst(docs, MobileIs(m)).Some?
    ensures var i := FindFirst(docs, MobileIs(m)).value;
            var after := docs[i := ConsumeOtp(docs[i], token)];
            FindFirst(after, MobileIs(m)) == Some(i) && CheckOtp(after[i], code, later) == Mismatch
  {
    var i := FindFirst(docs, MobileIs(m)).value;
    FindFirstAfterSave(docs, MobileIs(m), i, ConsumeOtp(docs[i], token));
  }

  method VerifyOtp(users: UserCollection, req: VerifyOtpRequest, now: int) returns (reply: UserReply)
    modifies users
    ensures !Truthy(req.mobileNumber) || !Truthy(req.otp) ==>
              reply == Refuse(400, MobileAndOtpRequired) && users.docs == old(users.docs)
    ensures Truthy(req.mobileNumber) && Truthy(req.otp) ==>
              var found := FindFirst(old(users.docs), MobileIs(req.mobileNumber));
              (found.None? ==> reply == Refuse(404, UserNotFound) && users.docs == old(users.docs)) &&
              (found.Some? ==>
                 var u := old(users.docs)[found.value];
                 match CheckOtp(u, req.otp.value, now)
                 case Mismatch => reply == Refuse(400, InvalidOtp) && users.docs == old(users.docs)
                 case Expired => reply == Refuse(400, OtpExpired) && users.docs == old(users.docs)
                 case Accepted =>
                   users.docs == old(users.docs)[found.value := ConsumeOtp(u, req.firebaseToken)] &&
                   reply == UserReply(200, OtpVerified, Some(ConsumeOtp(u, req.firebaseToken)), None))
    ensures reply.status != 200 ==> users.docs == old(users.docs)
    ensures DeviceIdsUnique(old(users.docs)) ==> DeviceIdsUnique(users.docs)
    ensures AllUsersValid(old(users.docs)) ==> AllUsersValid(users.docs)
  {
    if !Truthy(req.mobileNumber) || !Truthy(req.otp) {
      return Refuse(400, MobileAndOtpRequired);
    }
    var found := FindFirst(users.docs, MobileIs(req.mobileNumber));
    if found.None? {
      return Refuse(404, UserNotFound);
    }
    var i := found.value;
    var user := users.docs[i];
    if user.otp != req.otp {
      return Refuse(400, InvalidOtp);
    }
    if PastExpiry(now, user.otpExpiration) {
      return Refuse(400, OtpExpired);
    }
    user := user.(isVerified := true);
    user := user.(firebaseToken := if Truthy(req.firebaseToken) then req.firebaseToken else user.firebaseToken);
    user := user.(otp := None);
    if DeviceIdsUnique(users.docs) {
      SaveKeepsDeviceIdsUnique(users.docs, i, user);
    }
    if AllUsersValid(users.docs) {
      UpdatesKeepUserValid(users.docs[i], now, req.firebaseToken, None, "");
      SaveKeepsAllUsersValid(users.docs, i, user);
    }
    users.Save(i, user);
    reply := UserReply(200, OtpVerified, Some(user), None);
  }

  // ---------------------------------------------------------------- schema after a save

  /** The documents the code, verification, login and token handlers save back keep a valid user
      valid: none of them touches a field the schema checks, except the token, which only a
      truthy value replaces. */
  lemma UpdatesKeepUserValid(u: User, now: int, token: Option<string>, outcome: Option<bool>, newToken: string)
    requires ValidUser(u)
    ensures ValidUser(IssueOtp(u, now))
    ensures ValidUser(ConsumeOtp(u, token))
    ensures ValidUser(u.(isAuthenticate := outcome))
    ensures newToken != "" ==> ValidUser(u.(firebaseToken := Some(newToken)))
  {
  }

  /** Saving a valid user in place keeps every stored user valid. */
  lemma SaveKeepsAllUsersValid(docs: seq<User>, i: nat, v: User)
    requires i < |docs| && ValidUser(v)
    requires AllUsersValid(docs)
    ensures AllUsersValid(docs[i := v])
  {
  }

  // ---------------------------------------------------------------- authenticateUser

  /** The message is decided by the boolean alone. */
  function LoginMessage(isAuthenticated: bool): (m: UserMessage)
    ensures m == LoggedIn <==> isAuthenticated
    ensures m == AuthenticationFailed <==> !isAuthenticated
  {
    if isAuthenticated then LoggedIn else AuthenticationFailed
  }

  method AuthenticateUser(users: UserCollection, req: AuthenticateRequest) returns (reply: UserReply)
    modifies users
    ensures !Truthy(req.mobileNumber) || !Truthy(req.deviceId) || req.isAuthenticated.None? ==>
              reply == Refuse(400, AuthenticationFieldsRequired) && users.docs == old(users.docs)
    ensures Truthy(req.mobileNumber) && Truthy(req.deviceId) && req.isAuthenticated.Some? ==>
              var found := FindFirst(old(users.docs), MobileAndDeviceAre(req.mobileNumber, req.deviceId));
              (found.None? ==> reply == Refuse(404, UserNotFound) && users.docs == old(users.docs)) &&
              (found.Some? ==>
                 var u := old(users.docs)[found.value].(isAuthenticate := req.isAuthenticated);
                 users.docs == old(users.docs)[found.value := u] &&
                 reply == UserReply(200, LoginMessage(req.isAuthenticated.value), Some(u), None))
    ensures DeviceIdsUnique(old(users.docs)) ==> DeviceIdsUnique(users.docs)
    ensures AllUsersValid(old(users.docs)) ==> AllUsersValid(users.docs)
  {
    if !Truthy(req.mobileNumber) || !Truthy(req.deviceId) || req.isAuthenticated.None? {
      return Refuse(400, AuthenticationFieldsRequired);
    }
    var found := FindFirst(users.docs, MobileAndDeviceAre(req.mobileNumber, req.deviceId));
    if found.None? {
      return Refuse(404, UserNotFound);
    }
    var i := found.value;
    var user := users.docs[i].(isAuthenticate := req.isAuthenticated);
    if DeviceIdsUnique(users.docs) {
      SaveKeepsDeviceIdsUnique(users.docs, i, user);
    }
    if AllUsersValid(users.docs) {
      UpdatesKeepUserValid(users.docs[i], 0, None, req.isAuthenticated, "");
      SaveKeepsAllUsersValid(users.docs, i, user);
    }
    users.Save(i, user);
    var message := LoginMessage(req.isAuthenticated.value);
    reply := UserReply(200, message, Some(user), None);
  }

  // ---------------------------------------------------------------- updateFirebaseToken

  method UpdateFirebaseToken(users: UserCollection, req: TokenRequest) returns (reply: UserReply)
    modifies users
    ensures !Truthy(req.deviceId) || !Truthy(req.oldFirebaseToken) || !Truthy(req.newFirebaseToken) ==>
              reply == Refuse(400, TokenFieldsRequired) && users.docs == old(users.docs)
    ensures Truthy(req.deviceId) && Truthy(req.oldFirebaseToken) && Truthy(req.newFirebaseToken) ==>
              var found := FindFirst(old(users.docs), DeviceIs(req.deviceId));
              (found.None? ==> reply == Refuse(404, UserNotFound) && users.docs == old(users.docs)) &&
              (found.Some? && old(users.docs)[found.value].firebaseToken != req.oldFirebaseToken ==>
                 reply == Refuse(400, OldTokenMismatch) && users.docs == old(users.docs)) &&
              (found.Some? && old(users.docs)[found.value].firebaseToken == req.oldFirebaseToken ==>
                 var u := old(users.docs)[found.value].(firebaseToken := req.newFirebaseToken);
                 users.docs == old(users.docs)[found.value := u] &&
                 reply == UserReply(200, TokenUpdated, Some(u), None))
    ensures DeviceIdsUnique(old(users.docs)) ==> DeviceIdsUnique(users.docs)
    ensures AllUsersValid(old(users.docs)) ==> AllUsersValid(users.docs)
  {
    if !Truthy(req.deviceId) || !Truthy(req.oldFirebaseToken) || !Truthy(req.newFirebaseToken) {
      return Refuse(400, TokenFieldsRequired);
    }
    var found := FindFirst(users.docs, DeviceIs(req.deviceId));
    if found.None? {
      return Refuse(404, UserNotFound);
    }
    var i := found.value;
    var user := users.docs[i];
    if user.firebaseToken != req.oldFirebaseToken {
      return Refuse(400, OldTokenMismatch);
    }
    user := user.(firebaseToken := req.newFirebaseToken);
    if DeviceIdsUnique(users.docs) {
      SaveKeepsDeviceIdsUnique(users.docs, i, user);
    }
    if AllUsersValid(users.docs) {
      UpdatesKeepUserValid(users.docs[i], 0, None, None, req.newFirebaseToken.value);
      SaveKeepsAllUsersValid(users.docs, i, user);
    }
    users.Save(i, user);
    reply := UserReply(200, TokenUpdated, Some(user), None);
  }
}
