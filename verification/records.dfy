/** The records the bot keeps: one per giveaway, each with the list of
    subscribers who pressed its join button. */
module Records {

  datatype Option<T> = None | Some(value: T)

  /** A subscriber who joined: Telegram user id and the name shown in the
      results (the @handle, or the given name when there is no handle). */
  datatype Participant = Participant(userId: int, username: string)

  /** One giveaway as stored in the list. `messageId` is absent until the
      announcement has been posted. */
  datatype Giveaway = Giveaway(
    id: int,
    title: string,
    prize: string,
    duration: int,
    endTime: int,
    winners: int,
    participants: seq<Participant>,
    messageId: Option<int>)

  /** True when some entry of `ps` belongs to user `userId`. */
  predicate HasUser(ps: seq<Participant>, userId: int)
  {
    exists j :: 0 <= j < |ps| && ps[j].userId == userId
  }

  /** No user appears twice in `ps`. */
  predicate DistinctUsers(ps: seq<Participant>)
  {
    forall a, b :: 0 <= a < b < |ps| ==> ps[a].userId != ps[b].userId
  }

  /** Appending a user who is not yet in the list: the new list contains
      that user, and if the users were distinct they stay distinct. */
  lemma AppendNewUser(ps: seq<Participant>, p: Participant)
    requires !HasUser(ps, p.userId)
    ensures HasUser(ps + [p], p.userId)
    ensures DistinctUsers(ps) ==> DistinctUsers(ps + [p])
  {
    var qs := ps + [p];
    assert qs[|ps|] == p;
    forall a, b | 0 <= a < b < |qs| && DistinctUsers(ps) ensures qs[a].userId != qs[b].userId {
      if b < |ps| {
        assert qs[a] == ps[a] && qs[b] == ps[b];
      } else {
        assert qs[a] == ps[a];
      }
    }
  }
}
