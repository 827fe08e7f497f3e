# szurubooru user rules, modelled in Dafny

This project models the rules layer for user accounts of the szurubooru image
board (`server/szurubooru/func/users.py`):

- the blocklist reconciler, which turns a user's persisted tag blocklist and a
  requested tag list into rows to insert and rows to delete;
- the visibility policy for a user's email and like/dislike counters;
- rank assignment over an ordered rank list;
- the profile setters (name, password, email, avatar style) and the avatar path;
- account creation, login-time bump and password reset;
- the serializer's field table and its two entry points.

Everything is pure. The user store is a sequence of `User` records, the user
count is its length, and the file store is a set of paths. The configuration
is a `Config` value: the rank list, the default rank and the default tag
blocklist. These collaborators are function parameters:

- the regexes, the column-width checks and the email format check (`Checks`);
- the privilege check;
- the tag lookup by exact names;
- the password hasher;
- the avatar URL builder.

The random password and salt and the clock reading are plain parameters.
Python exceptions become the `Err` side of a `Result`. This includes the
runtime failures the code does not catch: a name lookup that matches two rows,
an acting user whose rank is not listed, a default rank that is not a rank
name, and a manual avatar for a record without a name.

Modules, one file each: `Wrappers` (Option/Result), `Text` (Python `strip`,
ASCII `lower`, `split`/`join`), `UserModel` (records, errors, configuration),
`Visibility`, `Serialization`, `Ranks`, `Profile`, `Accounts`, `Blocklist`.

Verify with
`dafny verify --resource-limit 2000000 --verification-time-limit 0 --warn-contradictory-assumptions *.dfy`.

## Behaviour worth noting

The code is modelled as written:

- `update_user_name` tests emptiness and column width on the raw name. It tests the name pattern and uniqueness on the stripped name.
- The first account gets the fixed `administrator` rank, not whatever rank the list puts last.
- A rename between two names that agree case-insensitively moves the avatar onto its own path. The old path still holds a file afterwards.
- `update_user_rank` looks up the acting user's rank position even when no account exists. An unlisted acting rank therefore fails even in that case.
- A target list that repeats a tag id absent from the persisted blocklist gives one addition per repeat. The one-row-per-tag invariant is preserved only for duplicate-free targets (`Blocklist.ReconcileKeepsRowsUnique`).
- `update_user_avatar` sets the manual style before it raises "content missing". The model returns only the error, because the surrounding transaction is rolled back.

## Model

| member | source | states |
|---|---|---|
| `Text.Strip` | server/szurubooru/func/users.py:274 | the stripped string is an infix of the input, everything cut from either end is whitespace, and the result neither starts nor ends with whitespace |
| `Text.StripEmptyIffAllSpace` | server/szurubooru/func/users.py:274-279 | a string strips to the empty string exactly when every character is whitespace, which is when an email is stored as absent |
| `Text.Split` | server/szurubooru/func/users.py:351 | splitting at a separator yields at least one piece and no piece holds the separator; `Text.JoinSplit` and `Text.SplitJoin` state the round trips |
| `Text.Lower` | server/szurubooru/func/users.py:41 | lower-casing keeps the length, leaves no ASCII capital, keeps every other character and maps each capital to its small letter |
| `Text.JoinSplit` | server/szurubooru/func/users.py:351 | splitting the default-blocklist setting at spaces loses nothing: rejoining the pieces gives the setting back |
| `Text.SplitJoin` | server/szurubooru/func/users.py:351 | space-free names joined with spaces split back into exactly those names |
| `Profile.AvatarPath` | server/szurubooru/func/users.py:40-41 | an avatar path is the avatars directory, the lower-cased name and the png extension, and the lower-cased name can be read back from it |
| `Profile.AvatarPathSameIffSameLower` | server/szurubooru/func/users.py:40-41 | two names share an avatar path if and only if they are equal case-insensitively |
| `Profile.FindUserByName` | server/szurubooru/func/users.py:188-193 | the lookup finds nothing exactly when no stored user has the name case-insensitively; it fails exactly when two or more users match; a single match is returned, and a found user is the only one that matches |
| `Profile.UniqueStoreMatchesAtMostOne` | server/szurubooru/func/users.py:188-193 | in a store whose names are case-insensitively unique, the lookup matches at most one user |
| `Profile.UpdateName` | server/szurubooru/func/users.py:235-252 | an empty name, then an over-long raw name, then a stripped name failing the pattern are refused in that order, each with its own reason; on success the record takes the stripped name, changes nothing else, and no other stored user owns that name case-insensitively |
| `Profile.NameTakenIff` | server/szurubooru/func/users.py:247-249 | for a valid name and a case-insensitively unique store, the rename is refused as taken if and only if a user with a different id owns the name, and succeeds otherwise |
| `Profile.RenameRelocatesAvatar` | server/szurubooru/func/users.py:250-252 | after renaming a user whose avatar is stored, the new path holds a file, the old path holds one only if both names agree case-insensitively, and all other paths are unchanged |
| `Profile.RelocateAvatar` | server/szurubooru/func/users.py:250-251 | the file store after a rename gains at most the new name's path and loses at most the old name's path; the new path holds a file exactly when it already did or the old name was non-empty and its avatar was stored; a moved avatar leaves its old path empty unless both paths coincide |
| `Profile.FirstNameKeepsFiles` | server/szurubooru/func/users.py:250 | naming a record that had no name leaves the file store untouched |
| `Profile.UpdatePassword` | server/szurubooru/func/users.py:255-269 | an empty password is refused as empty, and a non-empty one failing the pattern as not matching the pattern; otherwise the salt is the fresh one, the hash and revision are the hasher's for that salt and password, and nothing else changes |
| `Profile.UpdateEmail` | server/szurubooru/func/users.py:272-279 | the stripped address is refused exactly when over-long or malformed, as too long when over-long and as malformed otherwise; otherwise only the email changes, to the non-empty stripped address, or to absent exactly when the input was all whitespace |
| `Profile.NormalEmail` | server/szurubooru/func/users.py:274-279 | the stored email is absent exactly when the input is all whitespace, and otherwise the non-empty stripped input |
| `Profile.UpdateEmailIdempotent` | server/szurubooru/func/users.py:272-279 | setting a user's email to the address already stored is accepted and leaves the record as it is |
| `Profile.UpdateAvatar` | server/szurubooru/func/users.py:373-396 | the update succeeds exactly for gravatar, or for manual on a named record that is given content or already has a file at its avatar path; manual without content fails as content missing exactly when no file is there; a nameless record fails only for manual; any other style is refused, and only then as unknown; a manual success leaves a file at the avatar path and adds no other path |
| `Profile.ManualAvatarReselectable` | server/szurubooru/func/users.py:379-385 | after a successful manual avatar update, choosing manual again without content succeeds and changes nothing |
| `Visibility.Email` | server/szurubooru/func/users.py:59-70 | the email is hidden as `false` if and only if nothing forces it, the viewer is another user, and the viewer lacks the edit-any-email privilege; otherwise it is the stored value, absent included |
| `Visibility.LikedPostCount` | server/szurubooru/func/users.py:73-80 | the liked count is hidden as `false` if and only if the viewer is another user, otherwise it is the stored counter |
| `Visibility.DislikedPostCount` | server/szurubooru/func/users.py:83-90 | the disliked count is hidden as `false` if and only if the viewer is another user, otherwise it is the stored counter |
| `Visibility.CountersVisibleImpliesEmailVisible` | server/szurubooru/func/users.py:64-90 | a viewer who sees a user's counters also sees that user's email, and the liked and disliked counts are shown to the same viewers |
| `Visibility.OwnFieldsVisible` | server/szurubooru/func/users.py:64-90 | a user always sees their own email and counters, whatever their privileges |
| `Serialization.Field` | server/szurubooru/func/users.py:104-162 | a field has a producer exactly when its key is one of the fourteen serializer keys |
| `Serialization.EmailField` | server/szurubooru/func/users.py:161-162 | the serialized email is `false` exactly under the hiding rule, and otherwise the stored email, or null when none is stored |
| `Serialization.CounterFields` | server/szurubooru/func/users.py:155-159 | the serialized like and dislike counts are `false` exactly for a foreign viewer and the stored counters for the user themself |
| `Serialization.SerializeUser` | server/szurubooru/func/users.py:165-173 | a missing user gives no response; otherwise the user's serializer receives the user, the viewer, the options and the email flag unchanged |
| `Serialization.SerializeMicroUser` | server/szurubooru/func/users.py:176-181 | a compact reference is absent only for a missing user, and always asks for exactly name and avatar URL without forcing the email |
| `Serialization.MicroFieldsProduced` | server/szurubooru/func/users.py:105-113 | both compact fields have producers, and neither passes through a visibility rule |
| `Ranks.IndexOf` | server/szurubooru/func/users.py:295 | the position is absent exactly when the name is not listed; otherwise it is the first position holding the name |
| `Ranks.UpdateRank` | server/szurubooru/func/users.py:282-299 | the rank is refused as invalid exactly when it is empty, unknown after stripping, or a sentinel, each with its own reason; an assignable rank fails because the acting user's rank is unlisted exactly when that rank is absent or not in the list; it is refused as unauthorised exactly when the actor's position is strictly below the requested one and an account exists; it succeeds exactly when neither applies and the actor's rank is listed, and then only the rank changes, to the stripped name, never above the actor's once accounts exist |
| `Ranks.BootstrapNeverRefused` | server/szurubooru/func/users.py:294-298 | with no account in the store the authorisation rule never refuses |
| `Ranks.UpdateRankFrame` | server/szurubooru/func/users.py:299 | a successful assignment changes the rank and no other field |
| `Ranks.OwnRankGrantable` | server/szurubooru/func/users.py:294-299 | an actor can always grant their own assignable rank |
| `Ranks.GrantableDownwardClosed` | server/szurubooru/func/users.py:294-299 | if an actor may grant a rank, they may grant every assignable rank listed at or below it |
| `UserModel.NewUser` | server/szurubooru/func/users.py:222 | a freshly built record has no id, name, email, rank, password material or timestamps |
| `Accounts.InitialRank` | server/szurubooru/func/users.py:226-229 | the first account gets administrator; later ones get the default rank, which must be a listed rank name |
| `Accounts.CreateUser` | server/szurubooru/func/users.py:221-232 | name errors win over password errors, those over email errors, and those over an unlisted default rank, which fails the creation; a created account has no id, the stripped name, the normalised email, the fresh password material, administrator rank when it is the first account and the default rank otherwise, the creation time and the gravatar style |
| `Accounts.FirstAccountIsAdministrator` | server/szurubooru/func/users.py:226-229 | the first account created is an administrator whatever the configured default rank |
| `Accounts.CreateUserSucceedsIff` | server/szurubooru/func/users.py:221-232 | when every stored user has an id, creation succeeds exactly when the name, password and email are acceptable, no stored user owns the name case-insensitively, and, once accounts exist, the default rank is listed |
| `Accounts.BumpLoginTime` | server/szurubooru/func/users.py:399-401 | the last login becomes the given time and nothing else changes |
| `Accounts.ResetPassword` | server/szurubooru/func/users.py:404-413 | the returned password is the generated one, the salt is the fresh one, and only the password material changes |
| `Accounts.ResetPasswordMatchesHash` | server/szurubooru/func/users.py:404-413 | the stored hash and revision are those the hasher derives from the stored salt and the returned password |
| `Blocklist.ReconcileBlocklist` | server/szurubooru/func/users.py:344-370 | without a target nothing is removed and the additions are one row per tag the configured default names resolve to, none when the setting is absent; with a target the removals are exactly the persisted rows whose tag is not targeted, in persisted order, and the additions are the targeted ids not persisted, in target order |
| `Blocklist.DefaultEntries` | server/szurubooru/func/users.py:349-352 | one new row for each resolved default tag, owned by the user, in resolution order |
| `Blocklist.CollectStale` | server/szurubooru/func/users.py:359-364 | the removal loop yields the rows whose tag left the target, and leaves in the working copy exactly the persisted ids that are still targeted |
| `Blocklist.CollectAdditions` | server/szurubooru/func/users.py:366-369 | the addition loop yields only targeted ids missing from the working copy, each as often as the target lists it |
| `Blocklist.FirstPos` | server/szurubooru/func/users.py:364 | the position found holds the id and no earlier position does |
| `Blocklist.RemoveFirst` | server/szurubooru/func/users.py:364 | removing an id from the working copy drops its first occurrence: earlier ids stay in place, later ones move up by one, and the multiset loses exactly one copy of the id |
| `Blocklist.FreshIdsDependsOnMembership` | server/szurubooru/func/users.py:364-368 | the additions depend only on which targeted ids are present, so the struck-out working copy gives the same additions as the full persisted list |
| `Blocklist.StaleMembers` | server/szurubooru/func/users.py:359-363 | a row is removed if and only if it is persisted and its tag is not targeted |
| `Blocklist.FreshMembers` | server/szurubooru/func/users.py:366-369 | an id is added if and only if it is targeted and not persisted |
| `Blocklist.RoundTrip` | server/szurubooru/func/users.py:354-370 | deleting the removals and appending the additions leaves a blocklist whose set of tag ids equals the target's |
| `Blocklist.AdditionMultiplicity` | server/szurubooru/func/users.py:366-369 | an id that is not persisted is added once per occurrence in the target, and a persisted id is never added |
| `Blocklist.ReconcileKeepsRowsUnique` | server/szurubooru/func/users.py:354-370 | from a duplicate-free blocklist and target, the applied plan is duplicate-free with exactly one row per targeted tag |
| `Blocklist.WorkedExamples` | server/szurubooru/func/users.py:354-370 | persisted tags 1, 2, 3 against target 2, 4 remove the rows for 1 and 3 and add 4; an empty target against an empty blocklist changes nothing |

## Left out

- Database queries and deletes are not modelled as database behaviour: `get_user_count`, `try_get_user_by_name_or_email`, `get_user_by_name`, `get_user_by_name_or_email`, `delete_blocklist_from_user`, `delete_blocklist_from_tag`, `get_blocklist_from_user` and `get_blocklist_tag_from_user`. Their results enter as parameters: the store sequence, the persisted blocklist rows and the blocklist tags given to the serializer. The repeated query inside `get_blocklist_from_user` has no observable effect.
- `get_avatar_url` is left out because its MD5 hash and URL formatting are foreign calls. The serializer takes the avatar URL builder as a parameter.
- The blocklist field hands over the user's blocked tags as they are. Each tag's own serialization (`tags.serialize_tag`, not part of this model) is left out.
- How the generic serializer (`BaseSerializer.serialize`, not part of this model) filters fields by the option list is left out. The entry points are modelled only as the call they make.
- The configured regexes, the column-width checks and `util.is_valid_email` are uninterpreted predicates.
- The privilege check, the tag lookup by exact names and the rank map (`auth.RANK_MAP`, not part of this model) come from outside. The rank map is an ordered list of names; a rank's key is taken to be its name, as the rank constants are in the repository.
- Password hashing and random generation are foreign crypto calls. The generated values and the hasher are parameters.
- `datetime.utcnow()` is a clock reading passed as `now`.
- Image decoding, resizing and PNG encoding are left out, and so are decoding failures. The file store records only which paths hold a file.
- `Profile.UpdateAvatar`: states that the avatar path holds a file after a content upload, not which bytes, because the image transform is left out.
- `Text.Lower`: lower-cases ASCII letters only. Python's and the database's Unicode case mappings are not modelled, so names outside ASCII compare case-sensitively here.
- The initial counters and version of a fresh record are placeholders. The code never reads them before the row is stored.
- The end-to-end post listing test and the wishlist schema migration are left out. The first exercises filtering code that is not part of this model; the second is schema DDL only.
