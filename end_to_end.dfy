/** A client-side walkthrough of the three flows in sequence: a registration
    whose password passed the strength rule, a login through the bearer-token
    gate with the token issued for the new user, a reset, and logins with the
    old and the new password. */
module EndToEnd {
  import opened Results
  import opened HttpStatus
  import CustomValidation
  import opened AuthService
  import opened AuthMiddleware

  method Walkthrough(hash: string -> string, matches: (string, string) -> bool,
                     verify: string -> Verified,
                     fullName: string, username: string, password: string, newPassword: string,
                     id: string, token: string, resetKey: string)
    returns (registered: Result<UserDoc, ApiError>, loggedIn: Result<UserDoc, ApiError>,
             reset: Result<UserDoc, ApiError>, staleLogin: Result<UserDoc, ApiError>,
             freshLogin: Result<UserDoc, ApiError>)
    // the registration route validates the password before the service runs
    requires CustomValidation.Password(password).Accepted?
    // what bcrypt is relied on for, for the two passwords involved: an
    // assumption about the library, not something the code establishes
    requires matches(password, hash(password)) && matches(newPassword, hash(newPassword))
    requires !matches(password, hash(newPassword))
    // the token issued at registration verifies to the new user's id
    requires token != "" && ' ' !in token
    requires verify(token) == Decoded(Claims(Some(id)))
    ensures registered == Success(UserDoc(id, fullName, username, hash(password)))
    ensures loggedIn == registered
    ensures reset == Success(UserDoc(id, fullName, username, hash(newPassword)))
    ensures staleLogin == Failure(ApiError("Error: " + IncorrectPassword, BadRequest))
    ensures freshLogin == reset
  {
    var store := new UserStore(hash, matches);
    registered := store.RegisterUser(fullName, username, password, id);

    SchemeNotInspected("Bearer", token, verify);
    var header := "Bearer" + " " + token;
    var gate := Gate(Some(header), verify);
    assert gate == Admit(Claims(Some(id)));
    loggedIn := store.LoginUser(username, password, gate.claims.sub);

    reset := store.ResetUserPass(username, newPassword, Single(resetKey), Some(resetKey));
    staleLogin := store.LoginUser(username, password, gate.claims.sub);
    freshLogin := store.LoginUser(username, newPassword, gate.claims.sub);
  }
}
