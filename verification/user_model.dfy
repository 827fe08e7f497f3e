/**
 * The entities the user rules work on: the user account, the tag it may
 * block, a blocklist row, the error taxonomy, and the configuration and
 * collaborator hooks that the rules consult.
 */
module UserModel {
  import opened Wrappers

  /** The two ways an avatar is sourced. */
  datatype AvatarStyle = Gravatar | Manual

  /**
   * A user account. Fields that a freshly constructed record leaves unset are
   * `Option`s: the id until the row is flushed, the name, email and password
   * material until the setters run, and the rank until one is assigned.
   * Timestamps are abstract clock readings.
   */
  datatype User = User(
    id: Option<int>,
    name: Option<string>,
    email: Option<string>,
    passwordSalt: Option<string>,
    passwordHash: Option<string>,
    passwordRevision: int,
    rank: Option<string>,
    avatarStyle: AvatarStyle,
    creationTime: Option<int>,
    lastLoginTime: Option<int>,
    commentCount: int,
    postCount: int,
    favoritePostCount: int,
    likedPostCount: int,
    dislikedPostCount: int,
    version: int)

  /** A record as `model.User()` builds it, before any setter has run. */
  function NewUser(): (u: User)
    ensures u.id.None? && u.name.None? && u.email.None? && u.rank.None?
    ensures u.passwordSalt.None? && u.passwordHash.None?
    ensures u.creationTime.None? && u.lastLoginTime.None?
  {
    User(None, None, None, None, None, 0, None, Gravatar, None, None, 0, 0, 0, 0, 0, 1)
  }

  /** A tag, referenced only by its id. */
  datatype Tag = Tag(id: int)

  /** A blocklist row: the owning user's id and the blocked tag's id. */
  datatype BlocklistEntry = BlocklistEntry(userId: Option<int>, tagId: int)

  datatype NameProblem = NameEmpty | NameTooLong | NamePattern
  datatype PasswordProblem = PasswordEmpty | PasswordPattern
  datatype EmailProblem = EmailTooLong | EmailMalformed
  datatype RankProblem = RankEmpty | RankUnknown | RankReserved
  datatype AvatarProblem = ContentMissing | StyleUnknown

  /**
   * Everything the user rules raise. The last four stand for Python runtime
   * failures the code does not catch: two users matching a case-insensitive
   * name lookup, an acting user whose rank is not in the rank list, a
   * configured default rank that is not a rank name, and a manual avatar for
   * a record that has no name.
   */
  datatype UserError =
    | InvalidUserName(nameProblem: NameProblem)
    | UserAlreadyExists
    | InvalidPassword(passwordProblem: PasswordProblem)
    | InvalidEmail(emailProblem: EmailProblem)
    | InvalidRank(rankProblem: RankProblem)
    | AuthError
    | InvalidAvatar(avatarProblem: AvatarProblem)
    | MultipleUsersFound
    | ActorRankUnlisted
    | DefaultRankUnlisted
    | NameMissing

  /** Rank names that exist but can never be assigned. */
  const RankAnonymous: string := "anonymous"
  const RankNobody: string := "nobody"
  /** The rank the first account receives. */
  const RankAdministrator: string := "administrator"

  /** The privilege that lets a viewer read any user's email. */
  const EditAnyEmailPrivilege: string := "users:edit:any:email"

  /**
   * Read-only configuration. `ranks` is the rank list in ascending order of
   * power; a rank's key and its name are the same string.
   * `defaultTagBlocklist` is absent when the configuration has no such key.
   */
  datatype Config = Config(
    ranks: seq<string>,
    defaultRank: string,
    defaultTagBlocklist: Option<string>)

  /**
   * The validation collaborators, left uninterpreted: the configured name and
   * password patterns, the column-width checks for name and email, and the
   * email format check.
   */
  datatype Checks = Checks(
    nameMatches: string -> bool,
    passwordMatches: string -> bool,
    nameTooLong: string -> bool,
    emailTooLong: string -> bool,
    isValidEmail: string -> bool)
}
