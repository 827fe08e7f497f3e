/**
 * Account lifecycle: creating an account (name, password and email setters
 * in that order, then rank, creation time and avatar style), bumping the
 * login time, and resetting the password.
 */
module Accounts {
  import opened Wrappers
  import opened UserModel
  import Text
  import Profile

  /** The rank a new account receives: the highest for the very first account, else the default. */
  function InitialRank(store: seq<User>, config: Config): (r: Result<string, UserError>)
    ensures |store| == 0 ==> r == Ok(RankAdministrator)
    ensures |store| > 0 ==>
      (r.Ok? <==> config.defaultRank in config.ranks) && (r.Ok? ==> r.value == config.defaultRank)
    ensures r.Err? ==> r.error == DefaultRankUnlisted
  {
    if |store| > 0 then
      if config.defaultRank in config.ranks then Ok(config.defaultRank) else Err(DefaultRankUnlisted)
    else Ok(RankAdministrator)
  }

  /**
   * `create_user`: a new record through the name, password and email
   * setters, then the initial rank, the creation time `now` and the
   * gravatar style. `salt` and `hasher` stand for the password collaborators.
   */
  function CreateUser(name: string, password: string, email: string, store: seq<User>,
                      files: set<string>, config: Config, checks: Checks, salt: string,
                      hasher: (string, string) -> (string, int), now: int): (r: Result<User, UserError>)
    ensures Profile.UpdateName(NewUser(), name, store, files, checks).Err? ==>
      r == Err(Profile.UpdateName(NewUser(), name, store, files, checks).error)
    ensures Profile.UpdateName(NewUser(), name, store, files, checks).Ok? &&
            Profile.UpdatePassword(NewUser(), password, salt, hasher, checks).Err? ==>
      r == Err(Profile.UpdatePassword(NewUser(), password, salt, hasher, checks).error)
    ensures Profile.UpdateName(NewUser(), name, store, files, checks).Ok? &&
            Profile.UpdatePassword(NewUser(), password, salt, hasher, checks).Ok? &&
            Profile.UpdateEmail(NewUser(), email, checks).Err? ==>
      r == Err(Profile.UpdateEmail(NewUser(), email, checks).error)
    ensures Profile.UpdateName(NewUser(), name, store, files, checks).Ok? &&
            Profile.UpdatePassword(NewUser(), password, salt, hasher, checks).Ok? &&
            Profile.UpdateEmail(NewUser(), email, checks).Ok? &&
            InitialRank(store, config).Err? ==>
      r == Err(DefaultRankUnlisted)
    ensures r.Ok? ==>
      && r.value.id.None?
      && r.value.name == Some(Text.Strip(name))
      && r.value.email == Profile.NormalEmail(email)
      && r.value.passwordSalt == Some(salt)
      && r.value.passwordHash == Some(hasher(salt, password).0)
      && r.value.passwordRevision == hasher(salt, password).1
      && r.value.rank == Some(if |store| == 0 then RankAdministrator else config.defaultRank)
      && r.value.creationTime == Some(now)
      && r.value.avatarStyle == Gravatar
  {
    match Profile.UpdateName(NewUser(), name, store, files, checks)
    case Err(e) => Err(e)
    case Ok((u1, _)) =>
      match Profile.UpdatePassword(u1, password, salt, hasher, checks)
      case Err(e) => Err(e)
      case Ok(u2) =>
        match Profile.UpdateEmail(u2, email, checks)
        case Err(e) => Err(e)
        case Ok(u3) =>
          match InitialRank(store, config)
          case Err(e) => Err(e)
          case Ok(rank) => Ok(u3.(rank := Some(rank), creationTime := Some(now), avatarStyle := Gravatar))
  }

  /**
   * The very first account always becomes an administrator, whatever the
   * configured default rank.
   */
  lemma FirstAccountIsAdministrator(name: string, password: string, email: string,
                                    files: set<string>, config: Config, checks: Checks,
                                    salt: string, hasher: (string, string) -> (string, int), now: int)
    requires CreateUser(name, password, email, [], files, config, checks, salt, hasher, now).Ok?
    ensures CreateUser(name, password, email, [], files, config, checks, salt, hasher, now).value.rank
            == Some(RankAdministrator)
  {
  }

  /**
   * Creation succeeds exactly when all three setters accept their input and,
   * once accounts exist, the default rank is a rank name. Every stored user
   * has an id, so any stored owner of the name blocks the new account.
   */
  lemma CreateUserSucceedsIff(name: string, password: string, email: string, store: seq<User>,
                              files: set<string>, config: Config, checks: Checks, salt: string,
                              hasher: (string, string) -> (string, int), now: int)
    requires forall u :: u in store ==> u.id.Some?
    ensures CreateUser(name, password, email, store, files, config, checks, salt, hasher, now).Ok? <==>
      && name != [] && !checks.nameTooLong(name) && checks.nameMatches(Text.Strip(name))
      && (forall u :: u in store ==> !Profile.NameClash(u, Text.Strip(name)))
      && password != [] && checks.passwordMatches(password)
      && !checks.emailTooLong(Text.Strip(email)) && checks.isValidEmail(Text.Strip(email))
      && (|store| > 0 ==> config.defaultRank in config.ranks)
  {
  }

  /** `bump_user_login_time`: records `now` as the last login and changes nothing else. */
  function BumpLoginTime(user: User, now: int): (r: User)
    ensures r.lastLoginTime == Some(now)
    ensures r.(lastLoginTime := user.lastLoginTime) == user
  {
    user.(lastLoginTime := Some(now))
  }

  /**
   * `reset_user_password`: store a fresh salt and the hash of a freshly
   * generated password, and hand that password back. `generated` and `salt`
   * are the two values the random generator produced; the password pattern
   * is not applied to a generated password.
   */
  function ResetPassword(user: User, generated: string, salt: string,
                         hasher: (string, string) -> (string, int)): (r: (User, string))
    ensures r.1 == generated
    ensures r.0.passwordSalt == Some(salt)
    ensures r.0.(passwordSalt := user.passwordSalt, passwordHash := user.passwordHash,
                 passwordRevision := user.passwordRevision) == user
  {
    var (hash, revision) := hasher(salt, generated);
    (user.(passwordSalt := Some(salt), passwordHash := Some(hash), passwordRevision := revision), generated)
  }

  /** The password a reset hands back is the one the stored hash was derived from. */
  lemma ResetPasswordMatchesHash(user: User, generated: string, salt: string,
                                 hasher: (string, string) -> (string, int))
    ensures var (u, plain) := ResetPassword(user, generated, salt, hasher);
      && u.passwordHash == Some(hasher(u.passwordSalt.value, plain).0)
      && u.passwordRevision == hasher(u.passwordSalt.value, plain).1
  {
  }
}
