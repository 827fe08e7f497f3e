/**
 * The user serializer: the table of named field producers, and the two entry
 * points that hand a user to the generic serializer with a field list.
 */
module Serialization {
  import opened Wrappers
  import opened UserModel
  import Visibility

  /** A serialized field value; `False` is the boolean sentinel of a hidden field. */
  datatype Value =
    | Null
    | False
    | Str(s: string)
    | Int(n: int)
    | Style(style: AvatarStyle)
    | Tags(tags: seq<Tag>)

  /** What one field producer needs besides the user. */
  datatype Context = Context(
    subject: User,
    viewer: User,
    forceShowEmail: bool,
    hasPrivilege: (User, string) -> bool,
    avatarUrl: User -> string,
    blocklistTags: seq<Tag>)

  /** The fields the user serializer can produce, in its declaration order. */
  const FieldNames: seq<string> := [
    "name", "creationTime", "lastLoginTime", "version", "rank", "blocklist",
    "avatarStyle", "avatarUrl", "commentCount", "uploadedPostCount",
    "favoritePostCount", "likedPostCount", "dislikedPostCount", "email"]

  /** The field list a compact reference to a user asks for. */
  const MicroFields: seq<string> := ["name", "avatarUrl"]

  function OptStr(o: Option<string>): Value
  {
    if o.Some? then Str(o.value) else Null
  }

  function OptInt(o: Option<int>): Value
  {
    if o.Some? then Int(o.value) else Null
  }

  function ShownCount(v: Visibility.Shown<int>): Value
  {
    if v.Visible? then Int(v.value) else False
  }

  function ShownEmail(v: Visibility.Shown<Option<string>>): Value
  {
    if v.Visible? then OptStr(v.value) else False
  }

  /** The producer registered under `key`, applied; `None` when no producer has that key. */
  function Field(ctx: Context, key: string): (r: Option<Value>)
    ensures r.Some? <==> key in FieldNames
  {
    var u := ctx.subject;
    match key
    case "name" => Some(OptStr(u.name))
    case "creationTime" => Some(OptInt(u.creationTime))
    case "lastLoginTime" => Some(OptInt(u.lastLoginTime))
    case "version" => Some(Int(u.version))
    case "rank" => Some(OptStr(u.rank))
    case "blocklist" => Some(Tags(ctx.blocklistTags))
    case "avatarStyle" => Some(Style(u.avatarStyle))
    case "avatarUrl" => Some(Str(ctx.avatarUrl(u)))
    case "commentCount" => Some(Int(u.commentCount))
    case "uploadedPostCount" => Some(Int(u.postCount))
    case "favoritePostCount" => Some(Int(u.favoritePostCount))
    case "likedPostCount" => Some(ShownCount(Visibility.LikedPostCount(u, ctx.viewer)))
    case "dislikedPostCount" => Some(ShownCount(Visibility.DislikedPostCount(u, ctx.viewer)))
    case "email" => Some(ShownEmail(Visibility.Email(u, ctx.viewer, ctx.forceShowEmail, ctx.hasPrivilege)))
    case _ => None
  }

  /**
   * The serialized email is the `false` sentinel exactly when the email
   * policy hides it; otherwise it is the stored email, or null when none is
   * stored.
   */
  lemma EmailField(ctx: Context)
    ensures Field(ctx, "email") == Some(False) <==>
      && !ctx.forceShowEmail
      && ctx.viewer.id != ctx.subject.id
      && !ctx.hasPrivilege(ctx.viewer, EditAnyEmailPrivilege)
    ensures Field(ctx, "email") != Some(False) ==>
      Field(ctx, "email") == Some(if ctx.subject.email.Some? then Str(ctx.subject.email.value) else Null)
  {
  }

  /** The serialized like and dislike counters are `false` exactly for a foreign viewer. */
  lemma CounterFields(ctx: Context)
    ensures Field(ctx, "likedPostCount") == Some(False) <==> ctx.viewer.id != ctx.subject.id
    ensures Field(ctx, "dislikedPostCount") == Some(False) <==> ctx.viewer.id != ctx.subject.id
    ensures ctx.viewer.id == ctx.subject.id ==>
      && Field(ctx, "likedPostCount") == Some(Int(ctx.subject.likedPostCount))
      && Field(ctx, "dislikedPostCount") == Some(Int(ctx.subject.dislikedPostCount))
  {
  }

  /**
   * A request to the generic serializer: the user, the viewer, the field list
   * and the email override. How the generic serializer filters the fields is
   * not part of this model.
   */
  datatype SerializerCall = SerializerCall(
    subject: User, viewer: User, options: seq<string>, forceShowEmail: bool)

  /** `serialize_user`: nothing for a missing user, otherwise the user's serializer with the options. */
  function SerializeUser(user: Option<User>, viewer: User, options: seq<string>,
                         forceShowEmail: bool): (r: Option<SerializerCall>)
    ensures r.None? <==> user.None?
    ensures r.Some? ==>
      && r.value.subject == user.value
      && r.value.viewer == viewer
      && r.value.options == options
      && r.value.forceShowEmail == forceShowEmail
  {
    if user.None? then None else Some(SerializerCall(user.value, viewer, options, forceShowEmail))
  }

  /** `serialize_micro_user`: always exactly the name and avatar URL, never a forced email. */
  function SerializeMicroUser(user: Option<User>, viewer: User): (r: Option<SerializerCall>)
    ensures r.None? <==> user.None?
    ensures r.Some? ==>
      && r.value.subject == user.value
      && r.value.options == ["name", "avatarUrl"]
      && !r.value.forceShowEmail
  {
    SerializeUser(user, viewer, MicroFields, false)
  }

  /** Every field a compact reference asks for has a producer, and neither is a guarded field. */
  lemma MicroFieldsProduced(ctx: Context)
    ensures forall k :: k in MicroFields ==> k in FieldNames
    ensures Field(ctx, "name") == Some(OptStr(ctx.subject.name))
    ensures Field(ctx, "avatarUrl") == Some(Str(ctx.avatarUrl(ctx.subject)))
  {
  }
}
