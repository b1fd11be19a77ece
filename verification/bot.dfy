/** The giveaway bot's state machine: the list of giveaways it keeps, the
    creation request, the join button, the timed end and the admin's
    `/pickwinner` command. Telegram messages, HTTP responses, the JSON file
    and timers are outside the model; each handler returns an outcome that
    says which message the bot would send. */
module GiveawayBot {
  import opened Records
  import opened CallbackData
  import opened Winners

  /** Result of the creation request: rejected for a missing field, or the
      id given to the new giveaway. */
  datatype CreateOutcome = MissingFields | Created(id: int)

  /** Result of pressing a button: not a join button (nothing answered),
      unknown giveaway, already joined, or joined. */
  datatype JoinOutcome = NotJoinData | UnknownGiveaway | AlreadyJoined | Joined

  /** Result of ending a giveaway: unknown id, nobody joined, or the
      winners in the order they were drawn. */
  datatype DrawOutcome = NotFound | NoParticipants | Drawn(picked: seq<Participant>)

  /** Result of `/pickwinner`: a sender other than the admin is ignored. */
  datatype AdminOutcome = Ignored | Answered(outcome: DrawOutcome)

  /** A creation field is falsy: an empty (or absent) title or prize, or a
      zero (or absent) duration or winner count. */
  predicate MissingField(title: string, prize: string, duration: int, winners: int)
  {
    title == [] || prize == [] || duration == 0 || winners == 0
  }

  /** `username || first_name`: the handle, or the given name when the
      user has no handle. */
  function DisplayName(username: string, firstName: string): (name: string)
    ensures name == username || name == firstName
    ensures name == firstName <== username == []
    ensures name == username <== username != []
  {
    if username != [] then username else firstName
  }

  /** `giveaways.find(g => g.id === id)`: the position of the first
      giveaway with that id, if any. */
  function FindIndex(gs: seq<Giveaway>, id: int): (r: Option<nat>)
    ensures r.Some? ==> r.value < |gs| && gs[r.value].id == id
    ensures r.Some? ==> forall j :: 0 <= j < r.value ==> gs[j].id != id
    ensures r.None? ==> forall j :: 0 <= j < |gs| ==> gs[j].id != id
  {
    if gs == [] then None
    else if gs[0].id == id then Some(0)
    else match FindIndex(gs[1..], id)
      case None => None
      case Some(j) => Some(j + 1)
  }

  /** The state every handler keeps once it holds: the giveaway at position
      i has id i + 1, and no user has joined one giveaway twice. */
  ghost predicate WellFormed(gs: seq<Giveaway>)
  {
    forall i :: 0 <= i < |gs| ==> gs[i].id == i + 1 && DistinctUsers(gs[i].participants)
  }

  /** In a well-formed list, ids are pairwise distinct, and looking an id up
      finds position id - 1 exactly when the id is in 1 .. |gs|. */
  lemma LookupWellFormed(gs: seq<Giveaway>, id: int)
    requires WellFormed(gs)
    ensures forall i, j :: 0 <= i < j < |gs| ==> gs[i].id != gs[j].id
    ensures FindIndex(gs, id) == if 1 <= id <= |gs| then Some(id - 1) else None
  {
    if 1 <= id <= |gs| {
      assert gs[id - 1].id == id;
    }
  }

  /** The giveaway a button's data points at: its position, when the data
      is a join button whose id names a stored giveaway. */
  function JoinTarget(gs: seq<Giveaway>, data: string): (r: Option<nat>)
    ensures r.Some? ==> StartsWith(data, JoinPrefix) && r.value < |gs|
    ensures r.Some? ==> ParseCallback(data).target == Some(gs[r.value].id)
    ensures r.None? && StartsWith(data, JoinPrefix) && ParseCallback(data).target.Some? ==>
              forall j :: 0 <= j < |gs| ==> gs[j].id != ParseCallback(data).target.value
  {
    match ParseCallback(data)
    case Other => None
    case JoinRequest(None) => None
    case JoinRequest(Some(id)) => FindIndex(gs, id)
  }

  /** What ending giveaway `id` yields when the oracle supplies the draws:
      the specification of both endGiveaway and the admin's command. */
  ghost function EndOutcome(gs: seq<Giveaway>, id: int, pick: (nat, nat) -> nat): DrawOutcome
    requires ValidOracle(pick)
  {
    match FindIndex(gs, id)
    case None => NotFound
    case Some(i) =>
      if |gs[i].participants| == 0 then NoParticipants
      else Drawn(Draw(gs[i].participants, gs[i].winners, pick, 0))
  }

  /** What ending a giveaway means: no winners for an unknown id or an
      empty list; otherwise min(winners, participants) winners, each a
      participant, no position drawn twice, no user winning twice, and
      everyone winning when the winner count covers all participants. */
  lemma EndOutcomeMeaning(gs: seq<Giveaway>, id: int, pick: (nat, nat) -> nat)
    requires ValidOracle(pick)
    ensures EndOutcome(gs, id, pick) == NotFound <==> forall j :: 0 <= j < |gs| ==> gs[j].id != id
    ensures EndOutcome(gs, id, pick) == NoParticipants <==>
              FindIndex(gs, id).Some? && gs[FindIndex(gs, id).value].participants == []
    ensures EndOutcome(gs, id, pick).Drawn? ==>
              var g := gs[FindIndex(gs, id).value];
              var w := EndOutcome(gs, id, pick).picked;
              && |w| == WinnerCount(g.winners, |g.participants|)
              && multiset(w) <= multiset(g.participants)
              && (g.winners >= |g.participants| ==> multiset(w) == multiset(g.participants))
              && (WellFormed(gs) ==> DistinctUsers(w))
  {
    match FindIndex(gs, id)
    case None =>
    case Some(i) =>
      var g := gs[i];
      if |g.participants| > 0 {
        DrawSubMultiset(g.participants, g.winners, pick, 0);
        if g.winners >= |g.participants| {
          DrawAll(g.participants, g.winners, pick, 0);
        }
        if WellFormed(gs) {
          DrawDistinct(g.participants, g.winners, pick, 0);
        }
      }
  }

  /** Ending the same giveaway twice draws again: with two participants and
      one winner, two runs of the random generator can crown different
      winners. Nothing records that a giveaway has already ended. */
  lemma EndingTwiceMayRedraw(a: Participant, b: Participant, gs: seq<Giveaway>, id: int)
    requires a != b
    requires FindIndex(gs, id).Some?
    requires gs[FindIndex(gs, id).value].participants == [a, b]
    requires gs[FindIndex(gs, id).value].winners == 1
    ensures EndOutcome(gs, id, (i: nat, len: nat) => 0) == Drawn([a])
    ensures EndOutcome(gs, id, (i: nat, len: nat) => if len > 1 then 1 else 0) == Drawn([b])
  {
  }

  class Bot {
    /** ADMIN_ID: the one Telegram user allowed to run `/pickwinner`. */
    const adminId: int
    /** The giveaways array, in creation order. */
    var giveaways: seq<Giveaway>

    ghost predicate Valid()
      reads this
    {
      WellFormed(giveaways)
    }

    /** Start-up: the records read from the database file (empty when the
        file does not exist). */
    constructor (adminId: int, stored: seq<Giveaway>)
      ensures this.adminId == adminId && giveaways == stored
      ensures stored == [] ==> Valid()
    {
      this.adminId := adminId;
      giveaways := stored;
    }

    /** POST /create-giveaway: reject a missing field, otherwise append a
        record with the next id, an end time `duration` seconds after `now`
        (in milliseconds) and no participants. */
    method Create(title: string, prize: string, duration: int, winners: int, now: int)
      returns (r: CreateOutcome)
      modifies this
      ensures MissingField(title, prize, duration, winners) ==>
                r == MissingFields && giveaways == old(giveaways)
      ensures !MissingField(title, prize, duration, winners) ==>
                && r == Created(|old(giveaways)| + 1)
                && giveaways == old(giveaways) +
                     [Giveaway(|old(giveaways)| + 1, title, prize, duration, now + duration * 1000, winners, [], None)]
      ensures old(Valid()) ==> Valid()
    {
      if MissingField(title, prize, duration, winners) {
        return MissingFields;
      }
      var endTime := now + duration * 1000;
      var id := |giveaways| + 1;
      giveaways := giveaways + [Giveaway(id, title, prize, duration, endTime, winners, [], None)];
      r := Created(id);
    }

    /** `giveaway.message_id = sentMsg.message_id`: once the announcement is
        posted, the record at `index` (the one just created) remembers it. */
    method SetMessageId(index: nat, messageId: int)
      requires index < |giveaways|
      modifies this
      ensures giveaways == old(giveaways)[index := old(giveaways)[index].(messageId := Some(messageId))]
      ensures old(Valid()) ==> Valid()
    {
      giveaways := giveaways[index := giveaways[index].(messageId := Some(messageId))];
    }

    /** The join button: ignore data without the `join_` prefix, answer
        "not found" for an unknown id and "already joined" for a user who
        is in the list; otherwise append the user to that giveaway only. */
    method Join(data: string, userId: int, username: string, firstName: string)
      returns (r: JoinOutcome)
      modifies this
      ensures r == NotJoinData <==> !StartsWith(data, JoinPrefix)
      ensures r == UnknownGiveaway <==>
                StartsWith(data, JoinPrefix) && JoinTarget(old(giveaways), data).None?
      ensures r == AlreadyJoined <==>
                JoinTarget(old(giveaways), data).Some? &&
                HasUser(old(giveaways)[JoinTarget(old(giveaways), data).value].participants, userId)
      ensures r != Joined ==> giveaways == old(giveaways)
      ensures r == Joined ==>
                var i := JoinTarget(old(giveaways), data).value;
                var g := old(giveaways)[i];
                && i < |old(giveaways)|
                && !HasUser(g.participants, userId)
                && giveaways == old(giveaways)[i := g.(participants :=
                     g.participants + [Participant(userId, DisplayName(username, firstName))])]
      ensures old(Valid()) ==> Valid()
    {
      var name := DisplayName(username, firstName);
      var request := ParseCallback(data);
      if request.Other? {
        return NotJoinData;
      }
      var found := if request.target.Some? then FindIndex(giveaways, request.target.value) else None;
      if found.None? {
        return UnknownGiveaway;
      }
      var i := found.value;
      var g := giveaways[i];
      if HasUser(g.participants, userId) {
        return AlreadyJoined;
      }
      var newcomer := Participant(userId, name);
      AppendNewUser(g.participants, newcomer);
      giveaways := giveaways[i := g.(participants := g.participants + [newcomer])];
      r := Joined;
    }

    /** endGiveaway: look the giveaway up and draw its winners from a copy
        of its participants. The list of giveaways is only read. */
    method EndGiveaway(id: int, pick: (nat, nat) -> nat) returns (r: DrawOutcome)
      requires ValidOracle(pick)
      ensures r == EndOutcome(giveaways, id, pick)
      ensures r == NotFound <==> forall j :: 0 <= j < |giveaways| ==> giveaways[j].id != id
      ensures Valid() ==> (r == NotFound <==> !(1 <= id <= |giveaways|))
      ensures r.Drawn? ==> 0 < |r.picked| || giveaways[FindIndex(giveaways, id).value].winners <= 0
    {
      if Valid() {
        LookupWellFormed(giveaways, id);
      }
      var found := FindIndex(giveaways, id);
      if found.None? {
        return NotFound;
      }
      var g := giveaways[found.value];
      if |g.participants| == 0 {
        return NoParticipants;
      }
      var picked := PickWinners(g.participants, g.winners, pick);
      r := Drawn(picked);
    }

    /** `/pickwinner <id>`: a sender other than the admin has no effect;
        the admin gets the same outcome as the timed end. */
    method PickWinnerCommand(senderId: int, id: nat, pick: (nat, nat) -> nat) returns (r: AdminOutcome)
      requires ValidOracle(pick)
      ensures senderId != adminId ==> r == Ignored
      ensures senderId == adminId ==> r == Answered(EndOutcome(giveaways, id, pick))
    {
      if senderId != adminId {
        return Ignored;
      }
      var outcome := EndGiveaway(id, pick);
      r := Answered(outcome);
    }
  }

  /** A user pressing the same join button twice is accepted once, then
      told they already joined; the list holds them once. */
  method JoinTwiceScenario(userId: int) returns (first: JoinOutcome, second: JoinOutcome, entries: nat)
    ensures first == Joined && second == AlreadyJoined && entries == 1
  {
    var bot := new Bot(0, []);
    var created := bot.Create("Launch", "Sticker pack", 60, 1, 0);
    JoinDataRoundTrip(1);
    first := bot.Join(JoinData(1), userId, "", "Ann");
    assert bot.giveaways[0].participants == [Participant(userId, "Ann")];
    assert bot.giveaways[0].participants[0].userId == userId;
    second := bot.Join(JoinData(1), userId, "ann", "Ann");
    entries := |bot.giveaways[0].participants|;
  }

  /** Two winners out of three joiners: exactly two different winners,
      each one of the three, whatever the random draws. */
  method TwoOfThreeScenario(pick: (nat, nat) -> nat) returns (r: DrawOutcome)
    requires ValidOracle(pick)
    ensures r.Drawn? && |r.picked| == 2 && r.picked[0].userId != r.picked[1].userId
    ensures forall w :: w in r.picked ==> w.userId in {1, 2, 3}
  {
    var bot := new Bot(0, []);
    var created := bot.Create("Launch", "Sticker pack", 60, 2, 0);
    var button := JoinData(1);
    JoinDataRoundTrip(1);
    ghost var ps: seq<Participant> := [];
    assert bot.Valid() && |bot.giveaways| == 1 && bot.giveaways[0].participants == ps;
    var a := bot.Join(button, 1, "a", "A");
    ps := [Participant(1, "a")];
    assert bot.Valid() && |bot.giveaways| == 1 && bot.giveaways[0].participants == ps;
    var b := bot.Join(button, 2, "b", "B");
    ps := ps + [Participant(2, "b")];
    assert bot.Valid() && |bot.giveaways| == 1 && bot.giveaways[0].participants == ps;
    var c := bot.Join(button, 3, "c", "C");
    ps := ps + [Participant(3, "c")];
    assert bot.Valid() && |bot.giveaways| == 1 && bot.giveaways[0].participants == ps;
    assert bot.giveaways[0].winners == 2;
    r := bot.EndGiveaway(1, pick);
    EndOutcomeMeaning(bot.giveaways, 1, pick);
    forall w | w in r.picked ensures w.userId in {1, 2, 3} {
      assert w in multiset(r.picked);
    }
  }
}
