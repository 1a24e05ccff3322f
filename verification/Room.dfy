/** One board and the players seated at it, as values: what each handler of chessboard.cpp does to their statuses
    and scores, and the laws that follow. The class ChessBoard is proved to refine these functions. */
module Rooms {
  import opened Wrappers
  import opened Bytes

  datatype Seat = Left | Right | Bottom

  datatype Status = NotStart | Ready | Began | Playing | Ended

  // The time for a whole game and for a single move.
  datatype Times = Times(total: int, step: int)

  datatype Player = Player(status: Status, score: uint32)

  datatype Room = Room(left: Option<Player>, right: Option<Player>, bottom: Option<Player>,
                       first: Option<Seat>, winner: Option<Seat>, loser: Option<Seat>,
                       totalTime: int, stepTime: int)
  {
    function At(s: Seat): Option<Player> {
      match s
      case Left => left
      case Right => right
      case Bottom => bottom
    }

    function Put(s: Seat, p: Option<Player>): (r: Room)
      ensures forall t: Seat :: r.At(t) == if t == s then p else At(t)
    {
      match s
      case Left => this.(left := p)
      case Right => this.(right := p)
      case Bottom => this.(bottom := p)
    }

    predicate Has(s: Seat, status: Status) {
      At(s).Some? && At(s).value.status == status
    }

    predicate IsPlaying(s: Seat) {
      Has(s, Playing)
    }

    /** GetUserNum */
    function Occupied(): nat {
      One(left.Some?) + One(right.Some?) + One(bottom.Some?)
    }

    /** GetActiveUsersNum */
    function PlayingCount(): nat {
      One(IsPlaying(Left)) + One(IsPlaying(Right)) + One(IsPlaying(Bottom))
    }

    /** GameBegan: somebody's status is above STATUS_BEGAN. */
    predicate GameBegan() {
      exists s: Seat :: Has(s, Playing) || Has(s, Ended)
    }

    predicate AllBegan() {
      Has(Left, Began) && Has(Right, Began) && Has(Bottom, Began)
    }

    function SetStatus(s: Seat, status: Status): Room {
      if At(s).Some? then Put(s, Some(At(s).value.(status := status))) else this
    }

    function SetAll(status: Status): Room {
      SetStatus(Left, status).SetStatus(Right, status).SetStatus(Bottom, status)
    }

    function Credit(s: Seat, points: nat): Room {
      if At(s).Some? then Put(s, Some(At(s).value.(score := Plus(At(s).value.score, points)))) else this
    }

    function Debit(s: Seat, points: nat): Room {
      if At(s).Some? then Put(s, Some(At(s).value.(score := Minus(At(s).value.score, points)))) else this
    }
  }

  function One(b: bool): nat {
    if b then 1 else 0
  }

  // Unsigned 32-bit arithmetic on scores.
  function Plus(score: uint32, points: nat): uint32 {
    (score as int + points) % TWO32
  }

  function Minus(score: uint32, points: nat): uint32 {
    (score as int - points) % TWO32
  }

  const EMPTY := Room(None, None, None, None, None, None, 0, 0)

  const WIN := 10
  const QUIT_PENALTY := 30

  // ---------- The handlers ----------

  /** AddUser and what GameRequestHandle does around it. */
  predicate JoinAccepted(r: Room, seat: Option<Seat>) {
    !r.GameBegan() && r.Occupied() != 3 && seat.Some? && r.At(seat.value) == None
  }

  /** A user who was granted a seat becomes ready, and the first comer when nobody else is there. */
  function Welcome(r: Room, seat: Seat): Room {
    var r1 := r.SetStatus(seat, Ready);
    if r1.Occupied() == 1 then r1.(first := Some(seat)) else r1
  }

  function Join(r: Room, seat: Option<Seat>, score: uint32): Room {
    if JoinAccepted(r, seat) then Welcome(r.Put(seat.value, Some(Player(NotStart, score))), seat.value) else r
  }

  /** The turn goes round left, bottom, right. */
  function After(s: Seat): Seat {
    match s
    case Left => Bottom
    case Bottom => Right
    case Right => Left
  }

  /** The next playing seat after `s`, with `s` itself considered last. */
  function NextPlaying(r: Room, s: Seat): Seat {
    if r.IsPlaying(After(s)) then After(s)
    else if r.IsPlaying(After(After(s))) then After(After(s))
    else s
  }

  /** The score and status part of MoveChessHandle. A capture names the loser's location; None is a location
      that is no seat. */
  function Capture(r: Room, src: Seat, target: Option<Seat>): Room {
    var r1 := r.(winner := Some(src), loser := target).Credit(src, WIN);
    if target.Some? then r1.Debit(target.value, WIN).SetStatus(target.value, Ended) else r1
  }

  function Move(r: Room, src: Seat, isWinner: bool, target: Option<Seat>): Room {
    var r1 := if isWinner then Capture(r, src, target) else r.(winner := None, loser := None);
    if r1.PlayingCount() > 1 then r1 else r1.SetStatus(src, Ended)
  }

  /** The seat announced after a move; None is LOCATION_MAX. */
  function Token(r: Room, src: Seat, isWinner: bool, target: Option<Seat>): Option<Seat> {
    var r1 := Move(r, src, isWinner, target);
    if r1.PlayingCount() > 1 then Some(NextPlaying(r1, src)) else None
  }

  /** ReconciledHandle */
  function Reconcile(r: Room, isRequest: bool, applyOrReply: nat, all: bool): Room {
    if (isRequest || applyOrReply == 0) && all then r.SetAll(Ended) else r
  }

  /** UndoHandle: an accepted reply reverses the capture that is still on record. */
  predicate UndoTakesEffect(r: Room, repOrRespon: nat, accepted: bool) {
    repOrRespon == 1 && accepted && r.winner.Some?
  }

  function Undo(r: Room, repOrRespon: nat, accepted: bool): Room {
    if UndoTakesEffect(r, repOrRespon, accepted) && r.loser.Some?
    then r.Debit(r.winner.value, WIN).Credit(r.loser.value, WIN).SetStatus(r.loser.value, Playing)
    else r
  }

  /** GameReadyHandle. None is LOCATION_MAX; any other number that is no location acts like None without times. */
  function MarkReady(r: Room, src: Option<Seat>): Room {
    if src.Some? then r.SetStatus(src.value, Began) else r
  }

  function GetReady(r: Room, src: Option<Seat>, times: Option<Times>): Room {
    var r1 := MarkReady(r, src);
    var r2 := if r.first == src && times.Some?
              then r1.(totalTime := times.value.total, stepTime := times.value.step) else r1;
    if r2.AllBegan() then r2.SetAll(Playing) else r2
  }

  /** GameAgainHandle; `began` is GameBegan of the board the message names. */
  function PlayAgain(r: Room, seat: Seat, began: bool): Room {
    if began && r.Has(seat, Ended) then r.SetStatus(seat, Ready) else r
  }

  /** LeaveRoomHandle once the leaver is marked: the last playing user wins, and a leaver who was playing
      ends the game for everyone. */
  function SettleAfterLeave(r: Room, wasPlaying: bool): Room {
    var r1 := if r.PlayingCount() == 1 then
                var s := OnlyPlaying(r);
                r.Credit(s, WIN).SetStatus(s, Ended)
              else r;
    if wasPlaying then r1.SetAll(Ended) else r1
  }

  /** GetOnlyActiveUser */
  function OnlyPlaying(r: Room): (s: Seat)
    ensures r.PlayingCount() == 1 ==> r.IsPlaying(s)
  {
    if r.IsPlaying(Left) then Left else if r.IsPlaying(Right) then Right else Bottom
  }

  function Penalised(r: Room, s: Seat): Room {
    if r.IsPlaying(s) then r.Debit(s, QUIT_PENALTY) else r
  }

  /** LeaveOutRoom */
  function Vacate(r: Room, s: Seat): Room {
    r.Put(s, None).(first := if r.first == Some(s) then None else r.first)
  }

  /** LeaveRoomHandle(user, false): giving up but staying at the table. */
  function Resign(r: Room, s: Seat): Room {
    if r.At(s) == None then r
    else SettleAfterLeave(Penalised(r, s).SetStatus(s, Ended), r.IsPlaying(s))
  }

  /** LeaveRoomHandle(user, true): leaving the table. */
  function Leave(r: Room, s: Seat): Room {
    if r.At(s) == None then r
    else SettleAfterLeave(Vacate(Penalised(r, s), s), r.IsPlaying(s))
  }

  /** The leaver as LeaveRoomHandle(user, true) leaves them. */
  function Leaver(r: Room, s: Seat): Player
    requires r.At(s).Some?
  {
    Penalised(r, s).At(s).value.(status := NotStart)
  }

  /** StateGamePlay::MsgHandle failing: the status is reset before the connection is closed. */
  function Drop(r: Room, s: Seat): Room {
    Leave(r.SetStatus(s, NotStart), s)
  }

  // ---------- Events ----------

  datatype Event =
    | Joins(seat: Option<Seat>, score: uint32)
    | Moves(src: Seat, isWinner: bool, target: Option<Seat>)
    | Reconciles(isRequest: bool, applyOrReply: nat, all: bool)
    | Undoes(repOrRespon: nat, accepted: bool)
    | IsReady(ready: Option<Seat>, times: Option<Times>)
    | PlaysAgain(who: Seat, began: bool)
    | Resigns(src: Seat)
    | Leaves(src: Seat)
    | IsDropped(src: Seat)

  /** What the handlers take for granted: pointers they dereference without a test are not null. */
  predicate Enabled(r: Room, e: Event) {
    match e
    case Moves(src, _, _) => r.At(src).Some?
    case Undoes(rep, accepted) =>
      UndoTakesEffect(r, rep, accepted) ==>
        r.At(r.winner.value).Some? && r.loser.Some? && r.At(r.loser.value).Some?
    case IsDropped(src) => r.At(src).Some?
    case _ => true
  }

  function Apply(r: Room, e: Event): Room {
    match e
    case Joins(seat, score) => Join(r, seat, score)
    case Moves(src, isWinner, target) => Move(r, src, isWinner, target)
    case Reconciles(isRequest, applyOrReply, all) => Reconcile(r, isRequest, applyOrReply, all)
    case Undoes(rep, accepted) => Undo(r, rep, accepted)
    case IsReady(src, times) => GetReady(r, src, times)
    case PlaysAgain(seat, began) => PlayAgain(r, seat, began)
    case Resigns(src) => Resign(r, src)
    case Leaves(src) => Leave(r, src)
    case IsDropped(src) => Drop(r, src)
  }

  /** The state a history of events leads to, or None when one of them was not possible. */
  function Replay(r: Room, events: seq<Event>): Option<Room> {
    if events == [] then Some(r)
    else
      var before := Replay(r, events[..|events| - 1]);
      var e := events[|events| - 1];
      if before.Some? && Enabled(before.value, e) then Some(Apply(before.value, e)) else None
  }

  lemma ReplayOneMore(r0: Room, events: seq<Event>, r: Room, e: Event)
    requires Replay(r0, events) == Some(r) && Enabled(r, e)
    ensures Replay(r0, events + [e]) == Some(Apply(r, e))
  {
    assert (events + [e])[..|events + [e]| - 1] == events;
  }

  lemma ReplayNothing(r: Room)
    ensures Replay(r, []) == Some(r)
  {
  }

  // ---------- How many users are playing ----------

  /** Nobody plays alone: the number of playing users is 0, 2 or 3. */
  predicate Settled(r: Room) {
    r.PlayingCount() != 1
  }

  /** The messages after which exactly one user is left playing. */
  predicate Breaks(r: Room, e: Event) {
    match e
    case Moves(src, isWinner, target) =>
      && isWinner && target.Some? && r.PlayingCount() == 2 && r.IsPlaying(target.value)
      && (target.value == src || !r.IsPlaying(src))
    case Undoes(rep, accepted) => UndoTakesEffect(r, rep, accepted) && r.PlayingCount() == 0
    case IsReady(src, _) => r.PlayingCount() == 2 && src.Some? && r.IsPlaying(src.value)
    case _ => false
  }

  lemma LeaveSettles(r: Room, s: Seat)
    requires Settled(r)
    ensures Settled(Leave(r, s))
  {
    hide Plus, Minus;
  }

  lemma ResignSettles(r: Room, s: Seat)
    requires Settled(r)
    ensures Settled(Resign(r, s))
  {
    hide Plus, Minus;
  }

  lemma DropSettles(r: Room, s: Seat)
    requires Settled(r)
    ensures Settled(Drop(r, s))
  {
    hide Plus, Minus;
  }

  lemma MoveSettlesIff(r: Room, src: Seat, isWinner: bool, target: Option<Seat>)
    requires Settled(r) && r.At(src).Some?
    ensures Settled(Move(r, src, isWinner, target)) <==> !Breaks(r, Moves(src, isWinner, target))
  {
    hide Plus, Minus;
  }

  lemma ReadySettlesIff(r: Room, src: Option<Seat>, times: Option<Times>)
    requires Settled(r)
    ensures Settled(GetReady(r, src, times)) <==> !Breaks(r, IsReady(src, times))
  {
  }

  lemma UndoSettlesIff(r: Room, rep: nat, accepted: bool)
    requires Settled(r) && Enabled(r, Undoes(rep, accepted))
    ensures Settled(Undo(r, rep, accepted)) <==> !Breaks(r, Undoes(rep, accepted))
  {
    hide Plus, Minus;
  }

  lemma OthersSettle(r: Room, seat: Option<Seat>, score: uint32, who: Seat, began: bool)
    requires Settled(r)
    ensures Settled(Join(r, seat, score)) && Settled(PlayAgain(r, who, began)) && Settled(r.SetAll(Ended))
  {
  }

  /** A settled board stays settled exactly when the message is not one of those listed in Breaks. */
  lemma SettledIff(r: Room, e: Event)
    requires Settled(r) && Enabled(r, e)
    ensures Settled(Apply(r, e)) <==> !Breaks(r, e)
  {
    hide Settled, Join, Move, Undo, GetReady, PlayAgain, Leave, Resign, Drop;
    match e
    case Joins(seat, score) => OthersSettle(r, seat, score, Left, false);
    case Moves(src, isWinner, target) => MoveSettlesIff(r, src, isWinner, target);
    case Reconciles(_, _, _) => OthersSettle(r, None, 0, Left, false);
    case Undoes(rep, accepted) => UndoSettlesIff(r, rep, accepted);
    case IsReady(src, times) => ReadySettlesIff(r, src, times);
    case PlaysAgain(who, began) => OthersSettle(r, None, 0, who, began);
    case Resigns(src) => ResignSettles(r, src);
    case Leaves(src) => LeaveSettles(r, src);
    case IsDropped(src) => DropSettles(r, src);
  }

  ghost predicate AlwaysSettled(r: Room, events: seq<Event>) {
    forall i :: 0 <= i <= |events| && Replay(r, events[..i]).Some? ==> Settled(Replay(r, events[..i]).value)
  }

  ghost predicate BreaksAt(r: Room, events: seq<Event>, i: nat)
    requires i < |events|
  {
    Replay(r, events[..i]).Some? && Breaks(Replay(r, events[..i]).value, events[i])
  }

  ghost predicate NeverBreaks(r: Room, events: seq<Event>) {
    forall i :: 0 <= i < |events| ==> !BreaksAt(r, events, i)
  }

  lemma AlsoBefore(r: Room, events: seq<Event>)
    requires Replay(r, events).Some? && events != []
    ensures Replay(r, events[..|events| - 1]).Some?
  {
    hide Apply, Enabled;
  }

  lemma SettledOneMore(r: Room, events: seq<Event>)
    requires Replay(r, events).Some? && events != []
    ensures AlwaysSettled(r, events)
       <==> AlwaysSettled(r, events[..|events| - 1]) && Settled(Replay(r, events).value)
  {
    hide Replay, Settled;
    var n := |events| - 1;
    assert forall i :: 0 <= i <= n ==> events[..n][..i] == events[..i];
    assert events[..|events|] == events;
    assert forall i :: 0 <= i <= |events| ==> i <= n || events[..i] == events;
  }

  lemma BreaksOneMore(r: Room, events: seq<Event>)
    requires Replay(r, events).Some? && events != []
    ensures var n := |events| - 1;
            && Replay(r, events[..n]).Some?
            && (NeverBreaks(r, events) <==>
                  NeverBreaks(r, events[..n]) && !Breaks(Replay(r, events[..n]).value, events[n]))
  {
    hide Replay, Breaks;
    AlsoBefore(r, events);
    var n := |events| - 1;
    forall i | 0 <= i < n
      ensures BreaksAt(r, events[..n], i) == BreaksAt(r, events, i)
    {
      assert events[..n][..i] == events[..i];
    }
    hide BreaksAt;
    assert BreaksAt(r, events, n) == Breaks(Replay(r, events[..n]).value, events[n]) by {
      BreaksLast(r, events, n);
    }
  }

  lemma BreaksLast(r: Room, events: seq<Event>, n: nat)
    requires n < |events| && Replay(r, events[..n]).Some?
    ensures BreaksAt(r, events, n) == Breaks(Replay(r, events[..n]).value, events[n])
  {
    hide Replay, Breaks;
  }

  /** Nobody plays alone at any point of a history exactly when no message in it is one of those in Breaks. */
  lemma {:induction false} AlwaysSettledIff(r: Room, events: seq<Event>)
    requires Settled(r) && Replay(r, events).Some?
    ensures AlwaysSettled(r, events) <==> NeverBreaks(r, events)
  {
    hide Apply, Breaks, Enabled, Settled, AlwaysSettled, NeverBreaks;
    if events == [] {
      NothingToSettle(r, events);
    } else {
      var before, e := events[..|events| - 1], events[|events| - 1];
      AlwaysSettledIff(r, before);
      SettledOneMore(r, events);
      BreaksOneMore(r, events);
      if AlwaysSettled(r, before) {
        LastIsSettled(r, before);
        SettledIff(Replay(r, before).value, e);
      }
    }
  }

  lemma NothingToSettle(r: Room, events: seq<Event>)
    requires Settled(r) && events == []
    ensures AlwaysSettled(r, events) && NeverBreaks(r, events)
  {
  }

  lemma LastIsSettled(r: Room, events: seq<Event>)
    requires AlwaysSettled(r, events) && Replay(r, events).Some?
    ensures Settled(Replay(r, events).value)
  {
    assert events[..|events|] == events;
  }

  // ---------- Boards on which one user is left playing alone ----------

  /** A history of a board that leaves one user playing, and only with its last message. */
  ghost predicate EndsWithOnePlaying(events: seq<Event>) {
    && events != []
    && Replay(EMPTY, events).Some? && Replay(EMPTY, events).value.PlayingCount() == 1
    && Settled(Replay(EMPTY, events[..|events| - 1]).value)
  }

  lemma EndsUnsettled(before: seq<Event>, r: Room, e: Event)
    requires Replay(EMPTY, before) == Some(r) && Settled(r) && Enabled(r, e) && Apply(r, e).PlayingCount() == 1
    ensures EndsWithOnePlaying(before + [e])
  {
    hide Apply, Enabled;
    ReplayOneMore(EMPTY, before, r, e);
    assert (before + [e])[..|before + [e]| - 1] == before;
  }

  // Three users, who came in the order left, right, bottom.
  function Seated(left: Player, right: Player, bottom: Player): Room {
    Room(Some(left), Some(right), Some(bottom), Some(Left), None, None, 0, 0)
  }

  lemma UserJoins(r: Room, seat: Seat, r1: Room)
    requires r.At(seat) == None && forall s: Seat :: r.At(s).Some? ==> r.At(s).value.status == Ready
    requires r1 == Welcome(r.Put(seat, Some(Player(NotStart, 0))), seat)
    ensures Enabled(r, Joins(Some(seat), 0)) && Apply(r, Joins(Some(seat), 0)) == r1
  {
  }

  lemma ThreeUsersJoin() returns (events: seq<Event>)
    ensures Replay(EMPTY, events) == Some(Seated(Player(Ready, 0), Player(Ready, 0), Player(Ready, 0)))
  {
    hide Replay, Apply, Enabled;
    ReplayNothing(EMPTY);
    var p := Player(Ready, 0);
    var e1, e2, e3 := Joins(Some(Left), 0), Joins(Some(Right), 0), Joins(Some(Bottom), 0);
    var r1 := EMPTY.(left := Some(p), first := Some(Left));
    var r2 := r1.(right := Some(p));
    UserJoins(EMPTY, Left, r1);
    UserJoins(r1, Right, r2);
    UserJoins(r2, Bottom, Seated(p, p, p));
    ReplayOneMore(EMPTY, [], EMPTY, e1);
    ReplayOneMore(EMPTY, [] + [e1], r1, e2);
    ReplayOneMore(EMPTY, [] + [e1] + [e2], r2, e3);
    events := [] + [e1] + [e2] + [e3];
  }

  lemma ThreeUsersStart() returns (events: seq<Event>)
    ensures Replay(EMPTY, events) == Some(Seated(Player(Playing, 0), Player(Playing, 0), Player(Playing, 0)))
  {
    hide Replay;
    events := ThreeUsersJoin();
    var r := Seated(Player(Ready, 0), Player(Ready, 0), Player(Ready, 0));
    var e1, e2, e3 := IsReady(Some(Left), None), IsReady(Some(Right), None), IsReady(Some(Bottom), None);
    var r1 := Apply(r, e1);
    ReplayOneMore(EMPTY, events, r, e1);
    var r2 := Apply(r1, e2);
    ReplayOneMore(EMPTY, events + [e1], r1, e2);
    ReplayOneMore(EMPTY, events + [e1] + [e2], r2, e3);
    events := events + [e1] + [e2] + [e3];
  }

  /** Left captures right, so that left and bottom play on. */
  lemma TwoUsersPlayOn() returns (events: seq<Event>, r: Room)
    ensures Replay(EMPTY, events) == Some(r)
    ensures r.PlayingCount() == 2 && r.IsPlaying(Left) && r.Has(Right, Ended) && r.IsPlaying(Bottom)
  {
    hide Replay;
    events := ThreeUsersStart();
    var start := Seated(Player(Playing, 0), Player(Playing, 0), Player(Playing, 0));
    var e := Moves(Left, true, Some(Right));
    ReplayOneMore(EMPTY, events, start, e);
    events, r := events + [e], Apply(start, e);
  }

  /** One of two remaining players reports ready again. */
  lemma ReadyLeavesOnePlaying() returns (events: seq<Event>)
    ensures EndsWithOnePlaying(events) && events[|events| - 1] == IsReady(Some(Left), None)
  {
    hide EndsWithOnePlaying, Replay;
    var before, r := TwoUsersPlayOn();
    EndsUnsettled(before, r, IsReady(Some(Left), None));
    events := before + [IsReady(Some(Left), None)];
  }

  /** A user who has already been captured captures one of two remaining players. */
  lemma CaptureLeavesOnePlaying() returns (events: seq<Event>)
    ensures EndsWithOnePlaying(events) && events[|events| - 1] == Moves(Right, true, Some(Left))
  {
    hide EndsWithOnePlaying, Replay, Plus, Minus;
    var before, r := TwoUsersPlayOn();
    EndsUnsettled(before, r, Moves(Right, true, Some(Left)));
    events := before + [Moves(Right, true, Some(Left))];
  }

  /** The last capture, which ended the game, is taken back. */
  lemma UndoLeavesOnePlaying() returns (events: seq<Event>)
    ensures EndsWithOnePlaying(events) && events[|events| - 1] == Undoes(1, true)
  {
    hide EndsWithOnePlaying, Replay, Plus, Minus;
    var before, r := TwoUsersPlayOn();
    var last := Moves(Left, true, Some(Bottom));
    ReplayOneMore(EMPTY, before, r, last);
    EndsUnsettled(before + [last], Apply(r, last), Undoes(1, true));
    events := before + [last] + [Undoes(1, true)];
  }

  // ---------- The rules of the game ----------

  /** The rules of the game: only playing users move and they capture other playing users, only users who are
      not playing get ready, and a capture is undone while its winner is still playing. */
  predicate Disciplined(r: Room, e: Event) {
    match e
    case Moves(src, isWinner, target) =>
      r.IsPlaying(src) && (isWinner ==> target.Some? && target.value != src && r.IsPlaying(target.value))
    case Undoes(rep, accepted) => UndoTakesEffect(r, rep, accepted) ==> r.IsPlaying(r.winner.value)
    case IsReady(src, _) => src.Some? ==> !r.IsPlaying(src.value)
    case _ => true
  }

  lemma DisciplineNeverBreaks(r: Room, e: Event)
    requires Settled(r) && Enabled(r, e) && Disciplined(r, e)
    ensures !Breaks(r, e)
  {
  }

  ghost predicate AlwaysDisciplined(events: seq<Event>) {
    forall i :: 0 <= i < |events| && Replay(EMPTY, events[..i]).Some? ==>
                  Disciplined(Replay(EMPTY, events[..i]).value, events[i])
  }

  /** In every disciplined history of a board, through joins, quits, disconnects and drops, the number of
      playing users between messages is 0, 2 or 3. */
  lemma {:induction false} PlayingIsNeverOne(events: seq<Event>)
    requires Replay(EMPTY, events).Some? && AlwaysDisciplined(events)
    ensures Replay(EMPTY, events).value.PlayingCount() in {0, 2, 3}
  {
    hide Apply, Breaks, Enabled, Disciplined;
    if events != [] {
      var before, e := events[..|events| - 1], events[|events| - 1];
      assert forall i :: 0 <= i < |before| ==> before[..i] == events[..i];
      PlayingIsNeverOne(before);
      var r := Replay(EMPTY, before).value;
      DisciplineNeverBreaks(r, e);
      SettledIff(r, e);
    }
  }

  // ---------- The turn ----------

  /** After a move that leaves more than one user playing, the turn goes to a playing user other than the mover,
      and it is the next one in the order left, bottom, right. After any other move it goes to nobody. */
  lemma TokenGoesToAnotherPlayer(r: Room, src: Seat, isWinner: bool, target: Option<Seat>)
    requires r.At(src).Some?
    ensures var r1 := Move(r, src, isWinner, target);
            match Token(r, src, isWinner, target)
            case None => r1.PlayingCount() <= 1 && !r1.IsPlaying(src)
            case Some(t) =>
              && r1.PlayingCount() > 1 && t != src && r1.IsPlaying(t)
              && (t == After(src) || !r1.IsPlaying(After(src)))
  {
    hide Plus, Minus;
  }

  ghost function PlayingSeats(r: Room): set<Seat> {
    set s: Seat | r.IsPlaying(s)
  }

  /** All through the history the same users are playing. */
  ghost predicate PlayersStay(r: Room, moves: seq<Event>) {
    forall i :: 0 <= i <= |moves| ==>
                  Replay(r, moves[..i]).Some? && PlayingSeats(Replay(r, moves[..i]).value) == PlayingSeats(r)
  }

  /** A history of moves, each but the first by the user whom the move before it announced. */
  ghost predicate OnlyTokenHoldersMove(r: Room, moves: seq<Event>) {
    && (forall i :: 0 <= i < |moves| ==> moves[i].Moves?)
    && (forall i :: 0 <= i < |moves| - 1 && Replay(r, moves[..i]).Some? ==>
          var m := moves[i];
          Token(Replay(r, moves[..i]).value, m.src, m.isWinner, m.target) == Some(moves[i + 1].src))
  }

  /** A move that captures nobody, made while the game is on, changes no player. */
  lemma PlainMoveKeepsPlayers(r: Room, src: Seat, target: Option<Seat>)
    requires r.PlayingCount() > 1
    ensures Move(r, src, false, target) == r.(winner := None, loser := None)
    ensures Token(r, src, false, target) == Some(NextPlaying(r, src))
  {
  }

  /** As long as seated users move and nobody captures, the same users are playing. */
  lemma {:induction false} PlainMovesKeepPlayers(r: Room, moves: seq<Event>)
    requires r.PlayingCount() > 1
    requires forall i :: 0 <= i < |moves| ==> moves[i].Moves? && !moves[i].isWinner && r.At(moves[i].src).Some?
    ensures PlayersStay(r, moves)
    ensures Replay(r, moves) == Some(if moves == [] then r else r.(winner := None, loser := None))
  {
    hide Move;
    if moves != [] {
      var before, m := moves[..|moves| - 1], moves[|moves| - 1];
      PlainMovesKeepPlayers(r, before);
      PlainMoveKeepsPlayers(Replay(r, before).value, m.src, m.target);
      assert forall i :: 0 <= i <= |before| ==> before[..i] == moves[..i];
      assert moves[..|moves|] == moves;
    }
  }

  lemma TurnCycle(r: Room, s: Seat)
    requires r.PlayingCount() > 1 && r.IsPlaying(s)
    ensures r.IsPlaying(NextPlaying(r, s)) && NextPlaying(r, s) != s
    ensures r.PlayingCount() == 2 ==>
              NextPlaying(r, NextPlaying(r, s)) == s && PlayingSeats(r) == {s, NextPlaying(r, s)}
    ensures r.PlayingCount() == 3 ==>
              var t := NextPlaying(r, s);
              var u := NextPlaying(r, t);
              NextPlaying(r, u) == s && u != s && u != t && PlayingSeats(r) == {s, t, u}
  {
    var t := NextPlaying(r, s);
    var u := NextPlaying(r, t);
    assert forall x: Seat :: r.IsPlaying(x) ==> x == s || x == t || x == u;
  }

  lemma SamePlayersSameTurn(r: Room, r1: Room, s: Seat)
    requires PlayingSeats(r1) == PlayingSeats(r)
    ensures NextPlaying(r1, s) == NextPlaying(r, s)
  {
    assert forall x: Seat :: r1.IsPlaying(x) <==> x in PlayingSeats(r1);
    assert forall x: Seat :: r.IsPlaying(x) <==> x in PlayingSeats(r);
  }

  /** The user who moves next is the next playing user. */
  lemma TurnGoesRound(r: Room, moves: seq<Event>, i: nat)
    requires PlayersStay(r, moves) && OnlyTokenHoldersMove(r, moves) && i + 1 < |moves|
    ensures moves[i + 1].src == NextPlaying(r, moves[i].src)
  {
    hide Move, NextPlaying, PlayingSeats;
    assert moves[..i + 1][..i] == moves[..i];
    SamePlayersSameTurn(r, Replay(r, moves[..i + 1]).value, moves[i].src);
  }

  lemma {:induction false} MoversArePlaying(r: Room, moves: seq<Event>, i: nat)
    requires r.PlayingCount() > 1 && PlayersStay(r, moves) && OnlyTokenHoldersMove(r, moves)
    requires i < |moves| && r.IsPlaying(moves[0].src)
    ensures r.IsPlaying(moves[i].src)
  {
    hide PlayersStay, Replay;
    if i > 0 {
      MoversArePlaying(r, moves, i - 1);
      TurnGoesRound(r, moves, i - 1);
      TurnCycle(r, moves[i - 1].src);
    }
  }

  ghost function Movers(moves: seq<Event>): (movers: seq<Seat>)
    requires forall i :: 0 <= i < |moves| ==> moves[i].Moves?
    ensures |movers| == |moves| && forall i :: 0 <= i < |moves| ==> movers[i] == moves[i].src
  {
    seq(|moves|, i requires 0 <= i < |moves| => moves[i].src)
  }

  /** If only the users whom MoveChessHandle announces move, and the same k users are playing all along, then every
      k consecutive moves are made by the k playing users, each once. */
  lemma TurnIsFair(r: Room, moves: seq<Event>, i: nat)
    requires r.PlayingCount() > 1 && PlayersStay(r, moves) && OnlyTokenHoldersMove(r, moves)
    requires i + r.PlayingCount() <= |moves| && r.IsPlaying(moves[0].src)
    ensures var window := Movers(moves)[i..i + r.PlayingCount()];
            && (forall a, b :: 0 <= a < b < |window| ==> window[a] != window[b])
            && (forall s: Seat :: s in window <==> r.IsPlaying(s))
  {
    hide PlayersStay, Replay;
    MoversArePlaying(r, moves, i);
    TurnCycle(r, moves[i].src);
    TurnGoesRound(r, moves, i);
    var k := r.PlayingCount();
    var window := Movers(moves)[i..i + k];
    if k == 3 {
      TurnGoesRound(r, moves, i + 1);
      assert window == [moves[i].src, moves[i + 1].src, moves[i + 2].src];
    } else {
      assert window == [moves[i].src, moves[i + 1].src];
    }
    forall s: Seat
      ensures s in window <==> r.IsPlaying(s)
    {
      assert r.IsPlaying(s) <==> s in PlayingSeats(r);
    }
  }

  // ---------- The score ledger ----------

  function ScoreAt(r: Room, s: Seat): nat {
    if r.At(s).Some? then r.At(s).value.score else 0
  }

  function Total(r: Room): nat {
    ScoreAt(r, Left) + ScoreAt(r, Right) + ScoreAt(r, Bottom)
  }

  ghost predicate Congruent(a: int, b: int) {
    (a - b) % TWO32 == 0
  }

  lemma CongruenceAdds(a: int, b: int, c: int, d: int)
    requires Congruent(a, b) && Congruent(c, d)
    ensures Congruent(a + c, b + d)
  {
    var j, k := (a - b) / TWO32, (c - d) / TWO32;
    assert a + c - (b + d) == (j + k) * TWO32;
    MultipleHasNoRemainder(j + k);
  }

  lemma MultipleHasNoRemainder(k: int)
    ensures k * TWO32 % TWO32 == 0
  {
    var d := k * TWO32 / TWO32 - k;
    assert d * TWO32 == -(k * TWO32 % TWO32);
  }

  lemma CreditAdds(r: Room, s: Seat, points: nat)
    requires r.At(s).Some?
    ensures Congruent(Total(r.Credit(s, points)), Total(r) + points)
  {
    var x: int := r.At(s).value.score;
    assert Plus(r.At(s).value.score, points) - x - points == -((x + points) / TWO32) * TWO32;
    MultipleHasNoRemainder(-((x + points) / TWO32));
  }

  lemma DebitSubtracts(r: Room, s: Seat, points: nat)
    requires r.At(s).Some?
    ensures Congruent(Total(r.Debit(s, points)), Total(r) - points)
  {
    var x: int := r.At(s).value.score;
    assert Minus(r.At(s).value.score, points) - x + points == -((x - points) / TWO32) * TWO32;
    MultipleHasNoRemainder(-((x - points) / TWO32));
  }

  lemma StatusKeepsTotal(r: Room, s: Seat, status: Status)
    ensures Total(r.SetStatus(s, status)) == Total(r) && Total(r.SetAll(status)) == Total(r)
  {
  }

  /** The score that comes to the table or goes away with its owner. */
  function Carried(r: Room, e: Event): int {
    match e
    case Joins(seat, score) => if JoinAccepted(r, seat) then score else 0
    case Leaves(src) => if r.At(src).Some? then 0 - Leaver(r, src).score as int else 0
    case IsDropped(src) => if r.At(src).Some? then 0 - r.At(src).value.score as int else 0
    case _ => 0
  }

  function LeavePoints(r: Room, s: Seat, remaining: Room): int {
    (if r.IsPlaying(s) then -QUIT_PENALTY else 0) + (if remaining.PlayingCount() == 1 then WIN else 0)
  }

  /** The points that are made or destroyed. Captures and undos only move them; a leaver who was playing loses
      30, and the last user left playing wins 10. */
  function Minted(r: Room, e: Event): int {
    match e
    case Moves(src, isWinner, target) =>
      if isWinner && (target == None || r.At(target.value) == None) then WIN else 0
    case Resigns(src) =>
      if r.At(src).Some? then LeavePoints(r, src, r.SetStatus(src, Ended)) else 0
    case Leaves(src) =>
      if r.At(src).Some? then LeavePoints(r, src, r.Put(src, None)) else 0
    case IsDropped(src) =>
      if r.At(src).Some? && r.Put(src, None).PlayingCount() == 1 then WIN else 0
    case _ => 0
  }

  lemma CaptureBalances(r: Room, src: Seat, target: Option<Seat>)
    requires r.At(src).Some?
    ensures Congruent(Total(Capture(r, src, target)),
                      Total(r) + if target == None || r.At(target.value) == None then WIN else 0)
  {
    var r0 := r.(winner := Some(src), loser := target);
    CreditAdds(r0, src, WIN);
    var r1 := r0.Credit(src, WIN);
    if target.Some? && r1.At(target.value).Some? {
      DebitSubtracts(r1, target.value, WIN);
      CongruenceAdds(Total(r1), Total(r) + WIN, Total(r1.Debit(target.value, WIN)) - Total(r1), -WIN);
      StatusKeepsTotal(r1.Debit(target.value, WIN), target.value, Ended);
    }
  }

  lemma UndoBalances(r: Room, rep: nat, accepted: bool)
    requires Enabled(r, Undoes(rep, accepted))
    ensures Congruent(Total(Undo(r, rep, accepted)), Total(r))
  {
    if UndoTakesEffect(r, rep, accepted) {
      var r1 := r.Debit(r.winner.value, WIN);
      DebitSubtracts(r, r.winner.value, WIN);
      CreditAdds(r1, r.loser.value, WIN);
      var r2 := r1.Credit(r.loser.value, WIN);
      CongruenceAdds(Total(r1), Total(r) - WIN, Total(r2) - Total(r1), WIN);
      StatusKeepsTotal(r2, r.loser.value, Playing);
    }
  }

  lemma SettlingPays(r: Room, wasPlaying: bool)
    ensures Congruent(Total(SettleAfterLeave(r, wasPlaying)),
                      Total(r) + if r.PlayingCount() == 1 then WIN else 0)
  {
    var r1 := r;
    if r.PlayingCount() == 1 {
      var s := OnlyPlaying(r);
      CreditAdds(r, s, WIN);
      StatusKeepsTotal(r.Credit(s, WIN), s, Ended);
      r1 := r.Credit(s, WIN).SetStatus(s, Ended);
    }
    StatusKeepsTotal(r1, Left, Ended);
  }

  lemma PenaltyCosts(r: Room, s: Seat)
    requires r.At(s).Some?
    ensures Congruent(Total(Penalised(r, s)), Total(r) - if r.IsPlaying(s) then QUIT_PENALTY else 0)
  {
    if r.IsPlaying(s) {
      DebitSubtracts(r, s, QUIT_PENALTY);
    }
  }

  lemma ResignBalances(r: Room, s: Seat)
    requires r.At(s).Some?
    ensures Congruent(Total(Resign(r, s)), Total(r) + LeavePoints(r, s, r.SetStatus(s, Ended)))
  {
    var r1 := Penalised(r, s);
    var r2 := r1.SetStatus(s, Ended);
    PenaltyCosts(r, s);
    StatusKeepsTotal(r1, s, Ended);
    SettlingPays(r2, r.IsPlaying(s));
    assert r2.PlayingCount() == r.SetStatus(s, Ended).PlayingCount();
    var pay := if r2.PlayingCount() == 1 then WIN else 0;
    CongruenceAdds(Total(r2), Total(r) - (if r.IsPlaying(s) then QUIT_PENALTY else 0),
                   Total(Resign(r, s)) - Total(r2), pay);
  }

  lemma LeaveBalances(r: Room, s: Seat)
    requires r.At(s).Some?
    ensures Congruent(Total(Leave(r, s)) + Leaver(r, s).score, Total(r) + LeavePoints(r, s, r.Put(s, None)))
  {
    var r1 := Penalised(r, s);
    var r2 := Vacate(r1, s);
    PenaltyCosts(r, s);
    assert Total(r1) == Total(r2) + Leaver(r, s).score;
    SettlingPays(r2, r.IsPlaying(s));
    assert r2.PlayingCount() == r.Put(s, None).PlayingCount();
    var pay := if r2.PlayingCount() == 1 then WIN else 0;
    CongruenceAdds(Total(r1), Total(r) - (if r.IsPlaying(s) then QUIT_PENALTY else 0),
                   Total(Leave(r, s)) - Total(r2), pay);
  }

  lemma ReadyBalances(r: Room, src: Option<Seat>, times: Option<Times>)
    ensures Total(GetReady(r, src, times)) == Total(r)
  {
    if src.Some? {
      StatusKeepsTotal(r, src.value, Began);
    }
    var r1 := MarkReady(r, src);
    var r2 := if r.first == src && times.Some?
              then r1.(totalTime := times.value.total, stepTime := times.value.step) else r1;
    StatusKeepsTotal(r2, Left, Playing);
  }

  lemma MoveBalances(r: Room, src: Seat, isWinner: bool, target: Option<Seat>)
    requires r.At(src).Some?
    ensures Congruent(Total(Move(r, src, isWinner, target)), Total(r) + Minted(r, Moves(src, isWinner, target)))
  {
    hide Capture;
    if isWinner {
      CaptureBalances(r, src, target);
      StatusKeepsTotal(Capture(r, src, target), src, Ended);
    } else {
      StatusKeepsTotal(r.(winner := None, loser := None), src, Ended);
    }
  }

  lemma JoinBalances(r: Room, seat: Option<Seat>, score: uint32)
    ensures Total(Join(r, seat, score)) == Total(r) + Carried(r, Joins(seat, score))
  {
  }

  lemma DropBalances(r: Room, src: Seat)
    requires r.At(src).Some?
    ensures Congruent(Total(Drop(r, src)), Total(r) + Carried(r, IsDropped(src)) + Minted(r, IsDropped(src)))
  {
    var r1 := r.SetStatus(src, NotStart);
    StatusKeepsTotal(r, src, NotStart);
    LeaveBalances(r1, src);
    assert r1.Put(src, None) == r.Put(src, None);
    assert Leaver(r1, src).score == r.At(src).value.score;
  }

  lemma NobodyLeaves(r: Room, s: Seat)
    requires r.At(s) == None
    ensures Resign(r, s) == r && Leave(r, s) == r
  {
  }

  /** One message changes the total of the seated scores, modulo 2^32, by what is carried and what is minted. */
  lemma StepBalances(r: Room, e: Event)
    requires Enabled(r, e)
    ensures Congruent(Total(Apply(r, e)), Total(r) + Carried(r, e) + Minted(r, e))
  {
    hide Total, Join, Move, Undo, GetReady, Leave, Resign, Drop, PlayAgain;
    match e
    case Joins(seat, score) => JoinBalances(r, seat, score);
    case Moves(src, isWinner, target) => MoveBalances(r, src, isWinner, target);
    case Reconciles(_, _, _) => StatusKeepsTotal(r, Left, Ended);
    case Undoes(rep, accepted) => UndoBalances(r, rep, accepted);
    case IsReady(src, times) => ReadyBalances(r, src, times);
    case PlaysAgain(who, began) => AgainBalances(r, who, began);
    case Resigns(src) =>
      if r.At(src).Some? {
        ResignBalances(r, src);
      } else {
        NobodyLeaves(r, src);
      }
    case Leaves(src) =>
      if r.At(src).Some? {
        LeaveBalances(r, src);
      } else {
        NobodyLeaves(r, src);
      }
    case IsDropped(src) => DropBalances(r, src);
  }

  lemma AgainBalances(r: Room, who: Seat, began: bool)
    ensures Total(PlayAgain(r, who, began)) == Total(r)
  {
    StatusKeepsTotal(r, who, Ready);
  }

  /** What a whole history carried and minted. */
  function Ledger(r: Room, events: seq<Event>): int
    requires Replay(r, events).Some?
  {
    if events == [] then 0
    else
      var before, e := events[..|events| - 1], events[|events| - 1];
      var r1 := Replay(r, before).value;
      Ledger(r, before) + Carried(r1, e) + Minted(r1, e)
  }

  /** Over every history, the scores at the table are accounted for modulo 2^32. */
  lemma {:induction false} ScoresAreAccountedFor(r: Room, events: seq<Event>)
    requires Replay(r, events).Some?
    ensures Congruent(Total(Replay(r, events).value), Total(r) + Ledger(r, events))
  {
    hide Apply, Enabled, Carried, Minted, Total;
    if events != [] {
      var before, e := events[..|events| - 1], events[|events| - 1];
      ScoresAreAccountedFor(r, before);
      var r1 := Replay(r, before).value;
      StepBalances(r1, e);
      CongruenceAdds(Total(r1), Total(r) + Ledger(r, before),
                     Total(Apply(r1, e)) - Total(r1), Carried(r1, e) + Minted(r1, e));
    }
  }

  /** What a table that starts empty holds is what was carried to it and minted there. */
  lemma TableAddsUp(empty: Room, events: seq<Event>)
    requires empty == EMPTY && Replay(empty, events).Some?
    ensures Congruent(Total(Replay(empty, events).value), Ledger(empty, events))
  {
    hide Apply, Enabled, Carried, Minted, Total;
    ScoresAreAccountedFor(empty, events);
    assert Total(empty) == 0 by {
      NothingToCount();
    }
  }

  lemma NothingToCount()
    ensures Total(EMPTY) == 0
  {
  }

  // ---------- Capture and undo ----------

  lemma ScoresCancel(x: uint32, points: nat)
    requires points < TWO32
    ensures Minus(Plus(x, points), points) == x && Plus(Minus(x, points), points) == x
  {
  }

  /** Taking a capture back: among three playing users everything is restored; between two, everything but the
      winner's status, which the capture had ended. */
  lemma UndoRevertsCapture(r: Room, src: Seat, target: Seat)
    requires src != target && r.IsPlaying(src) && r.IsPlaying(target)
    ensures var r1 := Undo(Move(r, src, true, Some(target)), 1, true);
            var recorded := r.(winner := Some(src), loser := Some(target));
            r1 == if r.PlayingCount() == 3 then recorded else recorded.SetStatus(src, Ended)
  {
    ScoresCancel(r.At(src).value.score, WIN);
    ScoresCancel(r.At(target).value.score, WIN);
    hide Plus, Minus;
  }

  lemma PointsAddUp(x: uint32, a: nat, b: nat)
    ensures Plus(Plus(x, a), b) == Plus(x, a + b) && Minus(Minus(x, a), b) == Minus(x, a + b)
  {
    var q, k := (x as int + a) / TWO32, (x as int - a) / TWO32;
    assert Plus(x, a) as int + b == x as int + a + b - q * TWO32;
    assert Minus(x, a) as int - b == x as int - a - b - k * TWO32;
    MultipleShifts(x as int + a + b, -q);
    MultipleShifts(x as int - a - b, -k);
  }

  lemma MultipleShifts(n: int, k: int)
    ensures (n + k * TWO32) % TWO32 == n % TWO32
  {
    var d := (n + k * TWO32) / TWO32 - n / TWO32 - k;
    assert d * TWO32 == n % TWO32 - (n + k * TWO32) % TWO32;
  }

  /** An undo leaves the capture on record: accepted a second time, it takes the points a second time. */
  lemma UndoCanBeRepeated(r: Room)
    requires Enabled(r, Undoes(1, true)) && UndoTakesEffect(r, 1, true) && r.winner != r.loser
    ensures var r1 := Undo(r, 1, true);
            && UndoTakesEffect(r1, 1, true) && Enabled(r1, Undoes(1, true))
            && Undo(r1, 1, true).At(r.winner.value).value.score == Minus(r.At(r.winner.value).value.score, 2 * WIN)
            && Undo(r1, 1, true).At(r.loser.value).value.score == Plus(r.At(r.loser.value).value.score, 2 * WIN)
  {
    PointsAddUp(r.At(r.winner.value).value.score, WIN, WIN);
    PointsAddUp(r.At(r.loser.value).value.score, WIN, WIN);
    hide Plus, Minus;
  }

  // ---------- Joining and starting ----------

  /** Two states with the same occupied seats, and the same first comer. */
  ghost predicate SameSeats(r: Room, r1: Room) {
    r1.first == r.first && forall s: Seat :: r1.At(s).Some? == r.At(s).Some?
  }

  lemma SettlingKeepsSeats(r: Room, wasPlaying: bool)
    ensures SameSeats(r, SettleAfterLeave(r, wasPlaying))
  {
    hide Plus, Minus;
  }

  lemma ResignKeepsSeats(r: Room, s: Seat)
    ensures SameSeats(r, Resign(r, s))
  {
    hide Plus, Minus, SettleAfterLeave;
    SettlingKeepsSeats(Penalised(r, s).SetStatus(s, Ended), r.IsPlaying(s));
  }

  /** Leaving frees the leaver's seat and no other. */
  lemma LeaveFreesSeat(r: Room, s: Seat)
    requires r.At(s).Some?
    ensures SameSeats(Vacate(r, s), Leave(r, s)) && SameSeats(Vacate(r, s), Drop(r, s))
  {
    hide Plus, Minus, SettleAfterLeave;
    SettlingKeepsSeats(Vacate(Penalised(r, s), s), r.IsPlaying(s));
    SettlingKeepsSeats(Vacate(r.SetStatus(s, NotStart), s), false);
  }

  lemma MoveKeepsSeats(r: Room, src: Seat, isWinner: bool, target: Option<Seat>)
    ensures SameSeats(r, Move(r, src, isWinner, target))
  {
    hide Plus, Minus;
    var r1 := if isWinner then Capture(r, src, target) else r.(winner := None, loser := None);
    assert SameSeats(r, r1);
  }

  /** While a seated user is playing or has ended, no message fills an empty seat. */
  lemma NobodyJoinsMidGame(r: Room, e: Event, s: Seat)
    requires r.GameBegan() && r.At(s) == None && Enabled(r, e)
    ensures Apply(r, e).At(s) == None
  {
    hide Plus, Minus, Move, Leave, Resign, Drop;
    match e
    case Moves(src, isWinner, target) => MoveKeepsSeats(r, src, isWinner, target);
    case Resigns(src) => ResignKeepsSeats(r, src);
    case Leaves(src) =>
      if r.At(src).Some? {
        LeaveFreesSeat(r, src);
      } else {
        NobodyLeaves(r, src);
      }
    case IsDropped(src) => LeaveFreesSeat(r, src);
    case _ =>
  }

  ghost predicate BeganThroughout(r: Room, events: seq<Event>) {
    forall i :: 0 <= i < |events| && Replay(r, events[..i]).Some? ==> Replay(r, events[..i]).value.GameBegan()
  }

  /** Over any stretch of history during which the game is on, an empty seat stays empty. */
  lemma {:induction false} EmptySeatStaysEmpty(r: Room, events: seq<Event>, s: Seat)
    requires Replay(r, events).Some? && r.At(s) == None && BeganThroughout(r, events)
    ensures Replay(r, events).value.At(s) == None
  {
    hide Apply, Enabled;
    if events != [] {
      var before := events[..|events| - 1];
      assert forall i :: 0 <= i < |before| ==> before[..i] == events[..i];
      EmptySeatStaysEmpty(r, before, s);
      assert Replay(r, before).value.GameBegan();
      NobodyJoinsMidGame(Replay(r, before).value, events[|events| - 1], s);
    }
  }

  /** The message that starts a game: it makes the third user ready. */
  predicate Starts(r: Room, e: Event) {
    e.IsReady? && MarkReady(r, e.ready).AllBegan()
  }

  lemma StartMakesAllPlay(r: Room, e: Event)
    requires Starts(r, e)
    ensures Apply(r, e).PlayingCount() == 3
  {
  }

  lemma LeavingStartsNothing(r: Room, s: Seat)
    requires r.PlayingCount() == 0
    ensures Leave(r, s).PlayingCount() == 0 && Resign(r, s).PlayingCount() == 0
  {
    hide Plus, Minus;
  }

  lemma DroppingStartsNothing(r: Room, s: Seat)
    requires r.PlayingCount() == 0
    ensures Drop(r, s).PlayingCount() == 0
  {
    hide Leave;
    LeavingStartsNothing(r.SetStatus(s, NotStart), s);
  }

  lemma MovingStartsNothing(r: Room, src: Seat, isWinner: bool, target: Option<Seat>)
    requires r.PlayingCount() == 0
    ensures Move(r, src, isWinner, target).PlayingCount() == 0
  {
    hide Plus, Minus;
  }

  lemma OnlyStartsBeginPlay(r: Room, e: Event)
    requires r.PlayingCount() == 0 && Enabled(r, e) && !Starts(r, e)
    requires !(e.Undoes? && UndoTakesEffect(r, e.repOrRespon, e.accepted))
    ensures Apply(r, e).PlayingCount() == 0
  {
    hide Plus, Minus, Move, Leave, Resign, Drop;
    match e
    case Moves(src, isWinner, target) => MovingStartsNothing(r, src, isWinner, target);
    case Resigns(src) => LeavingStartsNothing(r, src);
    case Leaves(src) => LeavingStartsNothing(r, src);
    case IsDropped(src) => DroppingStartsNothing(r, src);
    case _ =>
  }

  ghost predicate NoUndo(r: Room, events: seq<Event>) {
    forall i :: 0 <= i < |events| && Replay(r, events[..i]).Some? && events[i].Undoes? ==>
                  !UndoTakesEffect(Replay(r, events[..i]).value, events[i].repOrRespon, events[i].accepted)
  }

  /** Undo aside, a board on which nobody plays gets playing users only through a start, and then has three. */
  lemma {:induction false} PlayBeginsWithAStart(r: Room, events: seq<Event>) returns (i: nat)
    requires Replay(r, events).Some? && NoUndo(r, events)
    requires r.PlayingCount() == 0 && Replay(r, events).value.PlayingCount() > 0
    ensures i < |events| && Replay(r, events[..i]).Some? && Starts(Replay(r, events[..i]).value, events[i])
    ensures Replay(r, events[..i + 1]).Some? && Replay(r, events[..i + 1]).value.PlayingCount() == 3
  {
    hide Apply, Enabled, Starts;
    var before, e := events[..|events| - 1], events[|events| - 1];
    assert forall j :: 0 <= j < |before| ==> before[..j] == events[..j];
    var r1 := Replay(r, before).value;
    if r1.PlayingCount() > 0 {
      i := PlayBeginsWithAStart(r, before);
      assert events[..i + 1] == before[..i + 1];
    } else {
      if !Starts(r1, e) {
        OnlyStartsBeginPlay(r1, e);
      }
      i := |events| - 1;
      assert events[..i + 1] == events;
      StartMakesAllPlay(r1, e);
    }
  }

  // ---------- The first comer ----------

  /** The first comer is nobody or somebody seated. */
  predicate FirstIsSeated(r: Room) {
    r.first.Some? ==> r.At(r.first.value).Some?
  }

  lemma StepKeepsFirstSeated(r: Room, e: Event)
    requires FirstIsSeated(r) && Enabled(r, e)
    ensures FirstIsSeated(Apply(r, e))
  {
    hide Plus, Minus, Move, Leave, Resign, Drop;
    match e
    case Moves(src, isWinner, target) => MoveKeepsSeats(r, src, isWinner, target);
    case Resigns(src) => ResignKeepsSeats(r, src);
    case Leaves(src) =>
      if r.At(src).Some? {
        LeaveFreesSeat(r, src);
      } else {
        NobodyLeaves(r, src);
      }
    case IsDropped(src) => LeaveFreesSeat(r, src);
    case _ =>
  }
}
