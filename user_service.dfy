/**
  Identity resolution: reading the caller's email and name out of the
  verified claim set, provisioning a user for a first-time caller, and
  resolving the caller to a stored user.
*/
module UserService {
  import opened Wrappers
  import opened Strings
  import opened Entities
  import opened WebApi
  import Collections

  const EmailClaimType := "email"
  const NameClaimType := "name"

  /** The claim has the given type: ordinally, or ignoring case. */
  predicate HasType(claim: Claim, claimType: string, ignoreCase: bool) {
    if ignoreCase then EqualsIgnoreCase(claim.claimType, claimType) else claim.claimType == claimType
  }

  /** The value of the first claim of the given type, if there is one. */
  function FirstClaimValue(claims: seq<Claim>, claimType: string, ignoreCase: bool): (r: Option<string>)
    ensures r.None? <==> forall j :: 0 <= j < |claims| ==> !HasType(claims[j], claimType, ignoreCase)
    ensures r.Some? ==>
      exists i :: 0 <= i < |claims| && HasType(claims[i], claimType, ignoreCase) && claims[i].value == r.value
                  && forall j :: 0 <= j < i ==> !HasType(claims[j], claimType, ignoreCase)
  {
    if |claims| == 0 then None
    else if HasType(claims[0], claimType, ignoreCase) then Some(claims[0].value)
    else
      var r := FirstClaimValue(claims[1..], claimType, ignoreCase);
      assert forall j :: 1 <= j < |claims| ==> claims[1..][j - 1] == claims[j];
      r
  }

  /** A claim of exactly the given type is also one of that type ignoring case. */
  lemma {:induction false} ExactClaimFoundIgnoringCase(claims: seq<Claim>, claimType: string)
    requires FirstClaimValue(claims, claimType, false).Some?
    ensures FirstClaimValue(claims, claimType, true).Some?
  {
    var i :| 0 <= i < |claims| && HasType(claims[i], claimType, false);
    EqualsIgnoreCaseIsEquivalence(claimType, claimType, claimType);
    assert HasType(claims[i], claimType, true);
  }

  /**
    CheckIfUserAuthenticated as the source writes it: the first claim whose
    type is "email" ignoring case gives the email, its absence throws an
    AuthenticationException, and the user is the first one whose Username
    equals that email.
  */
  function CheckIfUserAuthenticatedAsWritten(db: Database, claims: seq<Claim>): (r: Result<Option<User>, Exception>)
    reads db
    ensures r.Failure? <==> FirstClaimValue(claims, EmailClaimType, true).None?
    ensures r.Failure? ==> r.error == AuthenticationException
    ensures r.Success? && r.value.Some? ==>
      r.value.value in db.users && r.value.value.username == FirstClaimValue(claims, EmailClaimType, true).value
    ensures r.Success? && r.value.None? ==>
      forall j :: 0 <= j < |db.users| ==> db.users[j].username != FirstClaimValue(claims, EmailClaimType, true).value
  {
    match FirstClaimValue(claims, EmailClaimType, true)
    case None => Failure(AuthenticationException)
    case Some(email) => Success(Collections.FirstOrNone(db.users, (u: User) => u.username == email))
  }

  /**
    CheckIfUserAuthenticated as intended: the user is looked up by the Email
    that CreateUserIfNotExist stores, so the caller it provisioned resolves.
    Read-only; the controllers use this one.
  */
  function CheckIfUserAuthenticated(db: Database, claims: seq<Claim>): (r: Result<Option<User>, Exception>)
    reads db
    ensures r.Failure? <==> FirstClaimValue(claims, EmailClaimType, true).None?
    ensures r.Failure? ==> r.error == AuthenticationException
    ensures r.Success? && r.value.Some? ==>
      r.value.value in db.users && r.value.value.email == FirstClaimValue(claims, EmailClaimType, true).value
    ensures r.Success? && r.value.None? ==>
      forall j :: 0 <= j < |db.users| ==> db.users[j].email != FirstClaimValue(claims, EmailClaimType, true).value
  {
    match FirstClaimValue(claims, EmailClaimType, true)
    case None => Failure(AuthenticationException)
    case Some(email) => Success(Collections.FirstOrNone(db.users, (u: User) => u.email == email))
  }

  /**
    With the unique index on Email, the caller whose email is stored resolves
    to exactly that user.
  */
  lemma ResolvesStoredEmail(db: Database, claims: seq<Claim>, i: nat)
    requires UsersValid(db.users)
    requires i < |db.users| && FirstClaimValue(claims, EmailClaimType, true) == Some(db.users[i].email)
    ensures CheckIfUserAuthenticated(db, claims) == Success(Some(db.users[i]))
  {
    var r := CheckIfUserAuthenticated(db, claims);
    var k :| 0 <= k < |db.users| && db.users[k] == r.value.value;
    assert db.users[k].email == db.users[i].email;
  }

  /**
    The as-written lookup misses a freshly provisioned user: a first-time
    caller whose email and name claims differ is stored by
    CreateUserIfNotExist with Email from the first and Username from the
    second, and the Username lookup by email then finds nobody, while the
    Email lookup finds the new user.
  */
  method ProvisionedUserMissedAsWritten(email: string, name: string, newId: Long)
    returns (asWritten: Result<Option<User>, Exception>, corrected: Result<Option<User>, Exception>)
    requires email != "" && name != "" && email != name
    ensures asWritten == Success(None)
    ensures corrected == Success(Some(User(newId, email, name)))
  {
    var db := new Database();
    var claims := [Claim(EmailClaimType, email), Claim(NameClaimType, name)];
    var created := CreateUserIfNotExist(db, claims, newId);
    assert db.users == [User(newId, email, name)];
    EqualsIgnoreCaseIsEquivalence(EmailClaimType, EmailClaimType, EmailClaimType);
    assert FirstClaimValue(claims, EmailClaimType, true) == Some(email);
    asWritten := CheckIfUserAuthenticatedAsWritten(db, claims);
    corrected := CheckIfUserAuthenticated(db, claims);
  }

  /** string.IsNullOrEmpty on a looked-up claim value. */
  predicate IsNullOrEmpty(value: Option<string>) {
    value.None? || value.value == ""
  }

  /**
    Provisions the caller. The email is the value of the first claim whose
    type is exactly "email" and the username that of the first "name" claim;
    a missing or empty email fails, a stored email succeeds without change,
    and otherwise a missing or empty name fails and a present one adds the
    user. `newId` is the identity the database generates for the new row.
  */
  method CreateUserIfNotExist(db: Database, claims: seq<Claim>, newId: Long) returns (created: bool)
    requires db.Valid()
    requires !HasUser(db.users, newId)
    modifies db
    ensures db.Valid()
    ensures db.photoAlbums == old(db.photoAlbums) && db.photos == old(db.photos)
    ensures db.memorylands == old(db.memorylands) && db.memorylandTokens == old(db.memorylandTokens)
    ensures db.memorylandConfigurations == old(db.memorylandConfigurations) && db.transactions == old(db.transactions)
    ensures var email := FirstClaimValue(claims, EmailClaimType, false);
            IsNullOrEmpty(email) ==> !created && db.users == old(db.users)
    ensures var email := FirstClaimValue(claims, EmailClaimType, false);
            !IsNullOrEmpty(email) && (exists j :: 0 <= j < |old(db.users)| && old(db.users)[j].email == email.value) ==>
              created && db.users == old(db.users)
    ensures var email := FirstClaimValue(claims, EmailClaimType, false);
            var name := FirstClaimValue(claims, NameClaimType, false);
            !IsNullOrEmpty(email) && (forall j :: 0 <= j < |old(db.users)| ==> old(db.users)[j].email != email.value) ==>
              if IsNullOrEmpty(name) then !created && db.users == old(db.users)
              else created && db.users == old(db.users) + [User(newId, email.value, name.value)]
    ensures var email := FirstClaimValue(claims, EmailClaimType, false);
            created <==> !IsNullOrEmpty(email) && exists j :: 0 <= j < |db.users| && db.users[j].email == email.value
  {
    var email := FirstClaimValue(claims, EmailClaimType, false);
    if IsNullOrEmpty(email) {
      return false;
    }
    if exists j :: 0 <= j < |db.users| && db.users[j].email == email.value {
      return true;
    }
    var username := FirstClaimValue(claims, NameClaimType, false);
    if IsNullOrEmpty(username) {
      return false;
    }
    var user := User(newId, email.value, username.value);
    ghost var users := db.users;
    db.users := db.users + [user];
    assert db.users[|users|] == user;
    assert forall i :: 0 <= i < |users| ==> db.users[i] == users[i];
    forall i | 0 <= i < |db.photoAlbums|
      ensures HasUser(db.users, db.photoAlbums[i].userId)
    {
      HasUserAppend(users, user, db.photoAlbums[i].userId);
    }
    forall i | 0 <= i < |db.memorylands|
      ensures HasUser(db.users, db.memorylands[i].userId)
    {
      HasUserAppend(users, user, db.memorylands[i].userId);
    }
    forall i | 0 <= i < |db.transactions|
      ensures HasUser(db.users, db.transactions[i].userId)
    {
      HasUserAppend(users, user, db.transactions[i].userId);
    }
    created := true;
  }
}
