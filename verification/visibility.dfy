/**
 * Who may see a user's email and like/dislike counters. A hidden field is not
 * omitted: it reads as the boolean `false`.
 */
module Visibility {
  import opened Wrappers
  import opened UserModel

  /** A field value as the viewer receives it: the value, or the `false` sentinel. */
  datatype Shown<+T> = Hidden | Visible(value: T)

  /** `get_email`: the stored email, which may itself be absent, or `false`. */
  function Email(subject: User, viewer: User, forceShowEmail: bool,
                 hasPrivilege: (User, string) -> bool): (r: Shown<Option<string>>)
    ensures r.Hidden? <==>
      && !forceShowEmail
      && viewer.id != subject.id
      && !hasPrivilege(viewer, EditAnyEmailPrivilege)
    ensures r.Visible? ==> r.value == subject.email
  {
    if !forceShowEmail && viewer.id != subject.id && !hasPrivilege(viewer, EditAnyEmailPrivilege)
    then Hidden
    else Visible(subject.email)
  }

  /** `get_liked_post_count`: only the subject sees their own count. */
  function LikedPostCount(subject: User, viewer: User): (r: Shown<int>)
    ensures r.Hidden? <==> viewer.id != subject.id
    ensures r.Visible? ==> r.value == subject.likedPostCount
  {
    if viewer.id != subject.id then Hidden else Visible(subject.likedPostCount)
  }

  /** `get_disliked_post_count`: only the subject sees their own count. */
  function DislikedPostCount(subject: User, viewer: User): (r: Shown<int>)
    ensures r.Hidden? <==> viewer.id != subject.id
    ensures r.Visible? ==> r.value == subject.dislikedPostCount
  {
    if viewer.id != subject.id then Hidden else Visible(subject.dislikedPostCount)
  }

  /**
   * Whoever may see a user's like counters may also see that user's email:
   * the email rule only adds ways to be shown.
   */
  lemma CountersVisibleImpliesEmailVisible(subject: User, viewer: User, forceShowEmail: bool,
                                           hasPrivilege: (User, string) -> bool)
    ensures LikedPostCount(subject, viewer).Visible? ==>
              Email(subject, viewer, forceShowEmail, hasPrivilege).Visible?
    ensures LikedPostCount(subject, viewer).Visible? <==> DislikedPostCount(subject, viewer).Visible?
  {
  }

  /** A viewer always sees their own email and counters, whatever their privileges. */
  lemma OwnFieldsVisible(u: User, forceShowEmail: bool, hasPrivilege: (User, string) -> bool)
    ensures Email(u, u, forceShowEmail, hasPrivilege) == Visible(u.email)
    ensures LikedPostCount(u, u) == Visible(u.likedPostCount)
    ensures DislikedPostCount(u, u) == Visible(u.dislikedPostCount)
  {
  }
}
