/**
 * Rank assignment: validation of a requested rank name against the ordered
 * rank list, and the rule that an acting user may not grant a rank above
 * their own once any account exists.
 */
module Ranks {
  import opened Wrappers
  import opened UserModel
  import Text

  /** Python's `list.index`: the position of the first occurrence, or `None` when absent. */
  function IndexOf(xs: seq<string>, x: string): (r: Option<nat>)
    ensures r.None? <==> x !in xs
    ensures r.Some? ==> r.value < |xs| && xs[r.value] == x
    ensures r.Some? ==> forall k :: 0 <= k < r.value ==> xs[k] != x
  {
    if xs == [] then None
    else if xs[0] == x then Some(0)
    else
      var rest := IndexOf(xs[1..], x);
      if rest.None? then None else Some(rest.value + 1)
  }

  /** The two sentinel ranks that can never be assigned. */
  predicate Reserved(key: string)
  {
    key == RankAnonymous || key == RankNobody
  }

  /** A rank name that `update_user_rank` accepts before the authorisation rule. */
  predicate Assignable(ranks: seq<string>, key: string)
  {
    key != [] && key in ranks && !Reserved(key)
  }

  /**
   * `update_user_rank`: the requested name, stripped, must be a known rank
   * other than the two sentinels; then an acting user ranked strictly below
   * it is refused unless no account exists yet.
   */
  function UpdateRank(user: User, rank: string, actor: User, store: seq<User>,
                      ranks: seq<string>): (r: Result<User, UserError>)
    ensures r.Err? && r.error.InvalidRank? <==>
      rank == [] || !Assignable(ranks, Text.Strip(rank))
    ensures rank == [] ==> r == Err(InvalidRank(RankEmpty))
    ensures r == Err(AuthError) <==>
      && rank != []
      && Assignable(ranks, Text.Strip(rank))
      && actor.rank.Some? && actor.rank.value in ranks
      && IndexOf(ranks, actor.rank.value).value < IndexOf(ranks, Text.Strip(rank)).value
      && |store| > 0
    ensures rank != [] && (Text.Strip(rank) == [] || Text.Strip(rank) !in ranks) ==>
      r == Err(InvalidRank(RankUnknown))
    ensures rank != [] && Text.Strip(rank) in ranks && Reserved(Text.Strip(rank)) ==>
      r == Err(InvalidRank(RankReserved))
    ensures r == Err(ActorRankUnlisted) <==>
      rank != [] && Assignable(ranks, Text.Strip(rank)) && (actor.rank.None? || actor.rank.value !in ranks)
    ensures r.Ok? ==> r.value == user.(rank := Some(Text.Strip(rank)))
    ensures r.Ok? <==>
      && rank != [] && Assignable(ranks, Text.Strip(rank))
      && actor.rank.Some? && actor.rank.value in ranks
      && !(IndexOf(ranks, actor.rank.value).value < IndexOf(ranks, Text.Strip(rank)).value && |store| > 0)
    ensures r.Ok? && |store| > 0 ==>
      IndexOf(ranks, Text.Strip(rank)).value <= IndexOf(ranks, actor.rank.value).value
  {
    if rank == [] then Err(InvalidRank(RankEmpty))
    else
      var key := Text.Strip(rank);
      if key == [] || key !in ranks then Err(InvalidRank(RankUnknown))
      else if Reserved(key) then Err(InvalidRank(RankReserved))
      else if actor.rank.None? || actor.rank.value !in ranks then Err(ActorRankUnlisted)
      else if IndexOf(ranks, actor.rank.value).value < IndexOf(ranks, key).value && |store| > 0
      then Err(AuthError)
      else Ok(user.(rank := Some(key)))
  }

  /** With no account in the store, the authorisation rule never refuses. */
  lemma BootstrapNeverRefused(user: User, rank: string, actor: User, ranks: seq<string>)
    ensures UpdateRank(user, rank, actor, [], ranks) != Err(AuthError)
  {
  }

  /** Assigning a rank changes the rank and nothing else. */
  lemma UpdateRankFrame(user: User, rank: string, actor: User, store: seq<User>, ranks: seq<string>)
    requires UpdateRank(user, rank, actor, store, ranks).Ok?
    ensures UpdateRank(user, rank, actor, store, ranks).value.(rank := user.rank) == user
  {
  }

  /** An acting user may always hand out their own rank, when it is assignable. */
  lemma OwnRankGrantable(user: User, actor: User, store: seq<User>, ranks: seq<string>)
    requires actor.rank.Some? && Assignable(ranks, actor.rank.value)
    requires Text.Strip(actor.rank.value) == actor.rank.value
    ensures UpdateRank(user, actor.rank.value, actor, store, ranks) == Ok(user.(rank := actor.rank))
  {
  }

  /**
   * What an acting user may grant is closed downwards: a grantable rank
   * makes every assignable rank listed before it grantable too.
   */
  lemma GrantableDownwardClosed(user: User, lower: string, higher: string, actor: User,
                                store: seq<User>, ranks: seq<string>)
    requires UpdateRank(user, higher, actor, store, ranks).Ok?
    requires lower != [] && Assignable(ranks, Text.Strip(lower))
    requires IndexOf(ranks, Text.Strip(lower)).value <= IndexOf(ranks, Text.Strip(higher)).value
    ensures UpdateRank(user, lower, actor, store, ranks).Ok?
  {
  }
}
