/**
 * The profile setters of a user account: name (with case-insensitive
 * uniqueness and avatar relocation), password, email and avatar style, plus
 * the derived avatar path. Each returns the updated record or the error it
 * raises; the user store is a sequence of records and the file store a set
 * of paths.
 */
module Profile {
  import opened Wrappers
  import opened UserModel
  import Text

  const AvatarDir: string := "avatars/"
  const AvatarExt: string := ".png"

  /** `get_avatar_path`: the stored avatar of a user, keyed by the lower-cased name. */
  function AvatarPath(name: string): (r: string)
    ensures |r| == |AvatarDir| + |name| + |AvatarExt|
    ensures r[..|AvatarDir|] == AvatarDir
    ensures r[|r| - |AvatarExt|..] == AvatarExt
    ensures r[|AvatarDir|..|r| - |AvatarExt|] == Text.Lower(name)
  {
    AvatarDir + Text.Lower(name) + AvatarExt
  }

  /** Two names share an avatar path exactly when they agree case-insensitively. */
  lemma AvatarPathSameIffSameLower(a: string, b: string)
    ensures AvatarPath(a) == AvatarPath(b) <==> Text.Lower(a) == Text.Lower(b)
  {
    if AvatarPath(a) == AvatarPath(b) {
      var p := AvatarPath(a);
      assert Text.Lower(a) == p[|AvatarDir|..|p| - |AvatarExt|] == Text.Lower(b);
    }
  }

  /** A stored user whose name equals `name` case-insensitively. */
  predicate NameClash(u: User, name: string)
  {
    u.name.Some? && Text.Lower(u.name.value) == Text.Lower(name)
  }

  /** The stored users that a case-insensitive lookup of `name` finds, in store order. */
  function NameMatches(store: seq<User>, name: string): (r: seq<User>)
    ensures forall u :: u in r <==> u in store && NameClash(u, name)
    decreases |store|
  {
    if store == [] then []
    else
      var init := NameMatches(store[..|store| - 1], name);
      var last := store[|store| - 1];
      assert forall u :: u in store <==> u in store[..|store| - 1] || u == last by {
        assert store == store[..|store| - 1] + [last];
      }
      if NameClash(last, name) then init + [last] else init
  }

  /**
   * `try_get_user_by_name`: the single case-insensitive match, none, or the
   * failure a lookup that expects at most one row raises on several.
   */
  function FindUserByName(store: seq<User>, name: string): (r: Result<Option<User>, UserError>)
    ensures r.Ok? && r.value.None? <==> forall u :: u in store ==> !NameClash(u, name)
    ensures r.Ok? && r.value.Some? ==> r.value.value in store && NameClash(r.value.value, name)
    ensures r.Ok? && r.value.Some? ==>
      forall u :: u in store && NameClash(u, name) ==> u == r.value.value
    ensures r.Err? ==> r.error == MultipleUsersFound
    ensures r.Err? <==> |NameMatches(store, name)| >= 2
    ensures |NameMatches(store, name)| == 1 ==> r == Ok(Some(NameMatches(store, name)[0]))
  {
    var m := NameMatches(store, name);
    if |m| == 0 then Ok(None)
    else if |m| == 1 then
      assert m[0] in m;
      assert forall u :: u in m ==> u == m[0];
      Ok(Some(m[0]))
    else Err(MultipleUsersFound)
  }

  /** The store invariant: no two stored users share a name case-insensitively. */
  predicate NamesUnique(store: seq<User>)
  {
    forall i, j :: 0 <= i < j < |store| && store[i].name.Some? && store[j].name.Some? ==>
      Text.Lower(store[i].name.value) != Text.Lower(store[j].name.value)
  }

  /** In a store that keeps names unique, a case-insensitive lookup finds at most one user. */
  lemma {:induction false} UniqueStoreMatchesAtMostOne(store: seq<User>, name: string)
    requires NamesUnique(store)
    ensures |NameMatches(store, name)| <= 1
    decreases |store|
  {
    if store != [] {
      var init := store[..|store| - 1];
      var last := store[|store| - 1];
      assert NamesUnique(init);
      UniqueStoreMatchesAtMostOne(init, name);
      if NameClash(last, name) {
        forall i | 0 <= i < |init|
          ensures !NameClash(init[i], name)
        {
          assert store[i] == init[i];
        }
        NoClashNoMatches(init, name);
        assert NameMatches(store, name) == [last];
      } else {
        assert NameMatches(store, name) == NameMatches(init, name);
      }
    }
  }

  lemma {:induction false} NoClashNoMatches(store: seq<User>, name: string)
    requires forall i :: 0 <= i < |store| ==> !NameClash(store[i], name)
    ensures NameMatches(store, name) == []
    decreases |store|
  {
    if store != [] {
      NoClashNoMatches(store[..|store| - 1], name);
    }
  }

  /** The file store after a rename: the old avatar, if stored, moves to the new name's path. */
  function RelocateAvatar(oldName: Option<string>, newName: string, files: set<string>): (r: set<string>)
    ensures r - files <= {AvatarPath(newName)}
    ensures oldName.None? ==> files <= r
    ensures oldName.Some? ==> files - r <= {AvatarPath(oldName.value)}
    ensures AvatarPath(newName) in r <==>
      AvatarPath(newName) in files || (oldName.Some? && oldName.value != [] && AvatarPath(oldName.value) in files)
    ensures oldName.Some? && oldName.value != [] && AvatarPath(oldName.value) in files ==>
      (AvatarPath(oldName.value) in r <==> AvatarPath(oldName.value) == AvatarPath(newName))
  {
    if oldName.Some? && oldName.value != [] && AvatarPath(oldName.value) in files
    then files - {AvatarPath(oldName.value)} + {AvatarPath(newName)}
    else files
  }

  /**
   * `update_user_name`: reject an empty or over-long name, strip it, check
   * it against the name pattern, refuse it when another user owns it
   * case-insensitively, then move the stored avatar to the new name's path
   * and set the name.
   */
  function UpdateName(user: User, name: string, store: seq<User>, files: set<string>,
                      checks: Checks): (r: Result<(User, set<string>), UserError>)
    ensures name == [] ==> r == Err(InvalidUserName(NameEmpty))
    ensures name != [] && checks.nameTooLong(name) ==> r == Err(InvalidUserName(NameTooLong))
    ensures name != [] && !checks.nameTooLong(name) && !checks.nameMatches(Text.Strip(name)) ==>
      r == Err(InvalidUserName(NamePattern))
    ensures r.Err? && r.error.InvalidUserName? <==>
      name == [] || checks.nameTooLong(name) || !checks.nameMatches(Text.Strip(name))
    ensures r == Err(UserAlreadyExists) ==>
      exists u :: u in store && NameClash(u, Text.Strip(name)) && u.id != user.id
    ensures r.Ok? ==>
      && r.value.0 == user.(name := Some(Text.Strip(name)))
      && checks.nameMatches(Text.Strip(name))
      && forall u :: u in store && NameClash(u, Text.Strip(name)) ==> u.id == user.id
    ensures r.Ok? ==> r.value.1 == RelocateAvatar(user.name, Text.Strip(name), files)
  {
    if name == [] then Err(InvalidUserName(NameEmpty))
    else if checks.nameTooLong(name) then Err(InvalidUserName(NameTooLong))
    else
      var n := Text.Strip(name);
      if !checks.nameMatches(n) then Err(InvalidUserName(NamePattern))
      else
        match FindUserByName(store, n)
        case Err(e) => Err(e)
        case Ok(other) =>
          if other.Some? && other.value.id != user.id then Err(UserAlreadyExists)
          else Ok((user.(name := Some(n)), RelocateAvatar(user.name, n, files)))
  }

  /**
   * With a case-insensitively unique store, a name is refused as taken
   * exactly when some other user owns it.
   */
  lemma NameTakenIff(user: User, name: string, store: seq<User>, files: set<string>, checks: Checks)
    requires name != [] && !checks.nameTooLong(name) && checks.nameMatches(Text.Strip(name))
    requires NamesUnique(store)
    ensures UpdateName(user, name, store, files, checks) == Err(UserAlreadyExists) <==>
      exists u :: u in store && NameClash(u, Text.Strip(name)) && u.id != user.id
    ensures UpdateName(user, name, store, files, checks).Ok? <==>
      forall u :: u in store && NameClash(u, Text.Strip(name)) ==> u.id == user.id
  {
    UniqueStoreMatchesAtMostOne(store, Text.Strip(name));
  }

  /**
   * Renaming a user whose avatar is stored moves it: the new path holds a
   * file, the old one is gone unless both names share a path, and every
   * other path is untouched.
   */
  lemma RenameRelocatesAvatar(user: User, name: string, store: seq<User>, files: set<string>,
                              checks: Checks)
    requires UpdateName(user, name, store, files, checks).Ok?
    requires user.name.Some? && user.name.value != [] && AvatarPath(user.name.value) in files
    ensures var files' := UpdateName(user, name, store, files, checks).value.1;
      && AvatarPath(Text.Strip(name)) in files'
      && (AvatarPath(user.name.value) in files' <==>
          Text.Lower(user.name.value) == Text.Lower(Text.Strip(name)))
      && forall p :: p != AvatarPath(user.name.value) && p != AvatarPath(Text.Strip(name)) ==>
           (p in files' <==> p in files)
  {
    AvatarPathSameIffSameLower(user.name.value, Text.Strip(name));
  }

  /** A record without a name (a new account) leaves the file store as it is. */
  lemma FirstNameKeepsFiles(user: User, name: string, store: seq<User>, files: set<string>,
                            checks: Checks)
    requires user.name.None?
    requires UpdateName(user, name, store, files, checks).Ok?
    ensures UpdateName(user, name, store, files, checks).value.1 == files
  {
  }

  /**
   * `update_user_password`: reject an empty password or one failing the
   * pattern, then store a fresh salt and the hash and revision the hasher
   * derives from it. `salt` is the value the random generator produced.
   */
  function UpdatePassword(user: User, password: string, salt: string,
                          hasher: (string, string) -> (string, int),
                          checks: Checks): (r: Result<User, UserError>)
    ensures password == [] ==> r == Err(InvalidPassword(PasswordEmpty))
    ensures r.Err? <==> password == [] || !checks.passwordMatches(password)
    ensures r.Err? ==> r.error.InvalidPassword?
    ensures password != [] && !checks.passwordMatches(password) ==>
      r == Err(InvalidPassword(PasswordPattern))
    ensures r.Ok? ==>
      && r.value.passwordSalt == Some(salt)
      && r.value.passwordHash == Some(hasher(salt, password).0)
      && r.value.passwordRevision == hasher(salt, password).1
      && r.value.(passwordSalt := user.passwordSalt, passwordHash := user.passwordHash,
                  passwordRevision := user.passwordRevision) == user
  {
    if password == [] then Err(InvalidPassword(PasswordEmpty))
    else if !checks.passwordMatches(password) then Err(InvalidPassword(PasswordPattern))
    else
      var (hash, revision) := hasher(salt, password);
      Ok(user.(passwordSalt := Some(salt), passwordHash := Some(hash), passwordRevision := revision))
  }

  /** The stored form of an accepted email: stripped, and absent when nothing is left. */
  function NormalEmail(email: string): (r: Option<string>)
    ensures r.None? <==> forall k :: 0 <= k < |email| ==> Text.IsSpace(email[k])
    ensures r.Some? ==> r.value != [] && r.value == Text.Strip(email)
  {
    Text.StripEmptyIffAllSpace(email);
    var e := Text.Strip(email);
    if e == [] then None else Some(e)
  }

  /**
   * `update_user_email`: strip the address, reject it when over-long or
   * malformed without touching the record, and otherwise store it, with an
   * empty address stored as no email.
   */
  function UpdateEmail(user: User, email: string, checks: Checks): (r: Result<User, UserError>)
    ensures r.Err? <==>
      checks.emailTooLong(Text.Strip(email)) || !checks.isValidEmail(Text.Strip(email))
    ensures checks.emailTooLong(Text.Strip(email)) ==> r == Err(InvalidEmail(EmailTooLong))
    ensures r.Err? ==> r.error.InvalidEmail?
    ensures !checks.emailTooLong(Text.Strip(email)) && !checks.isValidEmail(Text.Strip(email)) ==>
      r == Err(InvalidEmail(EmailMalformed))
    ensures r.Ok? ==> r.value.(email := user.email) == user
    ensures r.Ok? && r.value.email.Some? ==>
      && r.value.email.value != []
      && r.value.email.value == Text.Strip(email)
    ensures r.Ok? && r.value.email.None? <==>
      r.Ok? && forall k :: 0 <= k < |email| ==> Text.IsSpace(email[k])
  {
    Text.StripEmptyIffAllSpace(email);
    var e := Text.Strip(email);
    if checks.emailTooLong(e) then Err(InvalidEmail(EmailTooLong))
    else if !checks.isValidEmail(e) then Err(InvalidEmail(EmailMalformed))
    else Ok(user.(email := NormalEmail(email)))
  }

  /** Setting a user's email to the address already stored is accepted and changes nothing. */
  lemma UpdateEmailIdempotent(user: User, email: string, checks: Checks)
    requires UpdateEmail(user, email, checks).Ok?
    requires UpdateEmail(user, email, checks).value.email.Some?
    ensures var u := UpdateEmail(user, email, checks).value;
      UpdateEmail(u, u.email.value, checks) == Ok(u)
  {
    var e := Text.Strip(email);
    var u := UpdateEmail(user, email, checks).value;
    assert !checks.emailTooLong(e) && checks.isValidEmail(e);
    assert u == user.(email := Some(e));
    Text.StripIdempotent(email);
    assert Text.Strip(e) == e;
    assert UpdateEmail(u, e, checks) == Ok(u.(email := Some(e)));
  }

  /**
   * `update_user_avatar`: "gravatar" only switches the style; "manual"
   * switches it and needs an image, either the content given (stored at
   * the user's avatar path) or one already stored there; anything else is
   * refused. The image is decoded, resized and re-encoded before saving;
   * only the fact that the path then holds a file is modelled.
   */
  function UpdateAvatar(user: User, style: string, content: Option<seq<bv8>>,
                        files: set<string>): (r: Result<(User, set<string>), UserError>)
    ensures style != "gravatar" && style != "manual" ==> r == Err(InvalidAvatar(StyleUnknown))
    ensures style == "gravatar" ==> r == Ok((user.(avatarStyle := Gravatar), files))
    ensures r == Err(NameMissing) <==> style == "manual" && user.name.None?
    ensures r == Err(InvalidAvatar(StyleUnknown)) <==> style != "gravatar" && style != "manual"
    ensures r.Ok? <==>
      || style == "gravatar"
      || (&& style == "manual" && user.name.Some?
          && ((content.Some? && content.value != []) || AvatarPath(user.name.value) in files))
    ensures r == Err(InvalidAvatar(ContentMissing)) <==>
      && style == "manual" && user.name.Some?
      && (content.None? || content.value == [])
      && AvatarPath(user.name.value) !in files
    ensures r.Ok? && style == "manual" ==>
      && r.value.0 == user.(avatarStyle := Manual)
      && AvatarPath(user.name.value) in r.value.1
      && r.value.1 - files <= {AvatarPath(user.name.value)}
      && files <= r.value.1
  {
    if style == "gravatar" then Ok((user.(avatarStyle := Gravatar), files))
    else if style == "manual" then
      if user.name.None? then Err(NameMissing)
      else
        var path := AvatarPath(user.name.value);
        if content.None? || content.value == [] then
          if path in files then Ok((user.(avatarStyle := Manual), files))
          else Err(InvalidAvatar(ContentMissing))
        else Ok((user.(avatarStyle := Manual), files + {path}))
    else Err(InvalidAvatar(StyleUnknown))
  }

  /**
   * Once a manual avatar has been set, selecting the manual style again
   * without content is accepted and changes nothing.
   */
  lemma ManualAvatarReselectable(user: User, content: Option<seq<bv8>>, files: set<string>)
    requires UpdateAvatar(user, "manual", content, files).Ok?
    ensures var (u, f) := UpdateAvatar(user, "manual", content, files).value;
      UpdateAvatar(u, "manual", None, f) == Ok((u, f))
  {
  }
}
