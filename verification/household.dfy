/** The household object: a member list and its points leaderboard. */
module Households {
  import Users
  import Sorting

  /**
   * A member of a household. `add_member` accepts any object; a user has points and
   * anything else reads as 0. Object identity is modelled as value equality.
   */
  datatype Member = UserMember(user: Users.User) | OtherMember(id: string)

  /** `getattr(member, 'points', 0)`. */
  function MemberPoints(m: Member): int {
    match m
    case UserMember(u) => u.points
    case OtherMember(_) => 0
  }

  datatype Household = Household(name: string, members: seq<Member>)

  /** `add_member`: append the member unless it is already there. */
  function AddMember(h: Household, m: Member): (r: Household)
    ensures r.name == h.name
    ensures m in r.members
    ensures m in h.members ==> r == h
    ensures m !in h.members ==> r.members == h.members + [m] && |r.members| == |h.members| + 1
  {
    if m in h.members then h else h.(members := h.members + [m])
  }

  /** Adding the same member twice is adding it once. */
  lemma AddMemberIdempotent(h: Household, m: Member)
    ensures AddMember(AddMember(h, m), m) == AddMember(h, m)
  {
  }

  /** `get_leaderboard`: the members, most points first, ties in member order. */
  function GetLeaderboard(h: Household): (r: seq<Member>)
    ensures multiset(r) == multiset(h.members)
    ensures Sorting.SortedDesc(r, MemberPoints)
  {
    Sorting.SortDesc(h.members, MemberPoints)
  }

  /** Members with equal points appear on the leaderboard in the order they joined. */
  lemma LeaderboardKeepsJoinOrder(h: Household, points: int)
    ensures Sorting.WithKey(GetLeaderboard(h), MemberPoints, points)
         == Sorting.WithKey(h.members, MemberPoints, points)
  {
    Sorting.SortStable(h.members, MemberPoints, points);
  }
}
