/** The `User` model: the stored user document, its schema's required fields, validators and
    default, and the collection the controllers read and save. */
module UserModel {
  import opened Js
  import opened Validators

  /** A user document. It carries the fields userSchema declares and, besides, the three the
      controllers read and write although the schema does not declare them: `countryCode`,
      `otpExpiration` and `isAuthenticate`. Mongoose's strict mode, which would drop those three
      on save, and its casting of `otp` to Number are not modelled: `otp` is the string the
      controller stores. Dates are milliseconds since the epoch. A None field is a path left
      `undefined`; a stored `null` is not distinguished from it. */
  datatype User = User(
    mobileNumber: Option<string>,
    countryCode: Option<string>,
    email: Option<string>,
    deviceName: Option<string>,
    deviceId: Option<string>,
    firebaseToken: Option<string>,
    timestamp: Option<int>,
    otp: Option<string>,
    otpExpiration: Option<int>,
    isVerified: bool,
    isAuthenticate: Option<bool>,
    websiteId: Option<string>,
    websiteName: Option<string>)

  /** `new User({...})` with the given fields: every field not given is absent, and
      `isVerified` takes its schema default, false. */
  function NewUser(mobileNumber: Option<string>, countryCode: Option<string>, email: Option<string>,
                   deviceId: Option<string>, firebaseToken: Option<string>, timestamp: Option<int>): (u: User)
    ensures !u.isVerified
    ensures u.otp.None? && u.otpExpiration.None? && u.isAuthenticate.None?
    ensures u.deviceName.None? && u.websiteId.None? && u.websiteName.None?
  {
    User(mobileNumber, countryCode, email, None, deviceId, firebaseToken, timestamp,
         None, None, false, None, None, None)
  }

  /** The user schema as declared: `mobileNumber`, `deviceName`, `firebaseToken`, `timestamp`,
      `websiteId` and `websiteName` are required; the mobile number must be ten digits; `email`
      is optional and, when present, must match the e-mail pattern; `deviceId` is optional and
      has no uniqueness constraint. A valid user's mobile number is a ten-digit numeral and its
      e-mail, when present, has the shape the e-mail pattern describes. */
  predicate ValidUser(u: User): (ok: bool)
    ensures ok ==> u.mobileNumber.Some? && exists n: nat :: n < Pow10(10) && Numeral(n, 10) == u.mobileNumber.value
    ensures ok && u.email.Some? ==> MatchesEmailPattern(u.email.value)
  {
    MobileNumberIsTenDigitNumeral(u.mobileNumber.GetOr(""));
    EmailValidatorMatchesPattern(u.email.GetOr(""));
    && Truthy(u.mobileNumber) && ValidMobileNumber(u.mobileNumber.value)
    && (u.email.Some? ==> ValidEmail(u.email.value))
    && Truthy(u.deviceName)
    && Truthy(u.firebaseToken)
    && u.timestamp.Some?
    && Truthy(u.websiteId)
    && Truthy(u.websiteName)
  }

  /** `email` is optional: dropping it keeps a valid user valid. Each required field, when absent
      or empty, makes any user invalid. */
  lemma UserSchemaRequiredFields(u: User)
    ensures ValidUser(u) ==> ValidUser(u.(email := None))
    ensures !ValidUser(u.(mobileNumber := None)) && !ValidUser(u.(mobileNumber := Some("")))
    ensures !ValidUser(u.(deviceName := None)) && !ValidUser(u.(deviceName := Some("")))
    ensures !ValidUser(u.(firebaseToken := None)) && !ValidUser(u.(firebaseToken := Some("")))
    ensures !ValidUser(u.(timestamp := None))
    ensures !ValidUser(u.(websiteId := None)) && !ValidUser(u.(websiteId := Some("")))
    ensures !ValidUser(u.(websiteName := None)) && !ValidUser(u.(websiteName := Some("")))
  {
  }

  /** The schema says nothing about `deviceId`: any value, shared or absent, keeps a user valid. */
  lemma DeviceIdUnconstrained(u: User, d: Option<string>)
    ensures ValidUser(u.(deviceId := d)) == ValidUser(u)
  {
  }

  /** Two distinct valid users may carry the same device id: the schema alone does not make
      device ids unique. */
  lemma SchemaAllowsSharedDevice(u: User, v: User, d: string)
    requires ValidUser(u) && ValidUser(v)
    ensures var docs := [u.(deviceId := Some(d)), v.(deviceId := Some(d))];
            ValidUser(docs[0]) && ValidUser(docs[1]) && !DeviceIdsUnique(docs)
  {
    var docs := [u.(deviceId := Some(d)), v.(deviceId := Some(d))];
    DeviceIdUnconstrained(u, Some(d));
    DeviceIdUnconstrained(v, Some(d));
    assert docs[0].deviceId == docs[1].deviceId;
  }

  /** Every stored user passes the schema. */
  ghost predicate AllUsersValid(docs: seq<User>) {
    forall i :: 0 <= i < |docs| ==> ValidUser(docs[i])
  }

  /** No device id that is present appears on two users. */
  ghost predicate DeviceIdsUnique(docs: seq<User>) {
    forall i, j :: 0 <= i < j < |docs| && docs[i].deviceId.Some? ==> docs[i].deviceId != docs[j].deviceId
  }

  // The filters the controllers pass to `User.findOne`: field equality, an absent request
  // value matching an absent field.

  function DeviceIs(d: Option<string>): User -> bool {
    (u: User) => u.deviceId == d
  }

  function MobileIs(m: Option<string>): User -> bool {
    (u: User) => u.mobileNumber == m
  }

  function MobileAndCountryAre(m: Option<string>, c: Option<string>): User -> bool {
    (u: User) => u.mobileNumber == m && u.countryCode == c
  }

  function MobileAndDeviceAre(m: Option<string>, d: Option<string>): User -> bool {
    (u: User) => u.mobileNumber == m && u.deviceId == d
  }

  /** The `users` collection. `Insert` is `save()` on a new document; `Save` is `save()` on a
      document loaded from position `i`. */
  class UserCollection {
    var docs: seq<User>

    constructor (initial: seq<User>)
      ensures docs == initial
    {
      docs := initial;
    }

    method Insert(u: User)
      modifies this
      ensures docs == old(docs) + [u]
    {
      docs := docs + [u];
    }

    method Save(i: nat, u: User)
      requires i < |docs|
      modifies this
      ensures docs == old(docs)[i := u]
    {
      docs := docs[i := u];
    }
  }
}
