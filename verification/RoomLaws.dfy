/** What each message does to a board, seat by seat and in plain numbers. The laws speak of Apply, the effect of an
    event, and name none of the functions that Apply is made of. */
module RoomLaws {
  import opened Wrappers
  import opened Bytes
  import opened Rooms

  /** Nothing but players and first comer differs. */
  ghost predicate SameRecord(r: Room, r1: Room) {
    r1.winner == r.winner && r1.loser == r.loser && r1.totalTime == r.totalTime && r1.stepTime == r.stepTime
  }

  function Seats(left: bool, right: bool, bottom: bool): set<Seat> {
    (if left then {Left} else {}) + (if right then {Right} else {}) + (if bottom then {Bottom} else {})
  }

  lemma CountSeats(left: bool, right: bool, bottom: bool)
    ensures |Seats(left, right, bottom)| == One(left) + One(right) + One(bottom)
  {
    var none: set<Seat> := {};
    var one := none + (if left then {Left} else {});
    var two := one + (if right then {Right} else {});
    assert |one| == One(left) && |two| == |one| + One(right);
    assert Seats(left, right, bottom) == two + (if bottom then {Bottom} else {});
  }

  lemma PlayersAreCounted(r: Room)
    ensures r.PlayingCount() == |set s: Seat | r.Has(s, Playing)|
    ensures r.Occupied() == |set s: Seat | r.At(s).Some?|
  {
    hide Seats;
    CountSeats(r.Has(Left, Playing), r.Has(Right, Playing), r.Has(Bottom, Playing));
    CountSeats(r.At(Left).Some?, r.At(Right).Some?, r.At(Bottom).Some?);
    SeatsAre(set s: Seat | r.Has(s, Playing));
    SeatsAre(set s: Seat | r.At(s).Some?);
  }

  lemma SeatsAre(seats: set<Seat>)
    ensures seats == Seats(Left in seats, Right in seats, Bottom in seats)
  {
    forall s: Seat
      ensures s in seats <==> s in Seats(Left in seats, Right in seats, Bottom in seats)
    {
      match s
      case Left =>
      case Right =>
      case Bottom =>
    }
  }

  lemma EmptyBoard(r: Room)
    ensures r.Occupied() == 0 <==> forall s: Seat :: r.At(s) == None
  {
    forall s: Seat
      ensures r.Occupied() == 0 ==> r.At(s) == None
    {
    }
    assert r.Occupied() == 0 <==> r.At(Left) == None && r.At(Right) == None && r.At(Bottom) == None;
  }

  /** A new board: nobody is there, nothing is on record, and no times are set. */
  lemma NewBoardLaw(r: Room)
    requires r == EMPTY
    ensures r.left == None && r.right == None && r.bottom == None
    ensures r.first == None && r.winner == None && r.loser == None && r.totalTime == 0 && r.stepTime == 0
  {
  }

  lemma SeatGrantedIff(r: Room, seat: Option<Seat>)
    ensures JoinAccepted(r, seat)
       <==> seat.Some? && r.At(seat.value) == None && forall s: Seat :: !r.Has(s, Playing) && !r.Has(s, Ended)
  {
    if seat.Some? && r.At(seat.value) == None {
      assert r.Occupied() != 3;
    }
  }

  /** A seat is granted exactly if it is free and no user's game has begun; the user becomes ready, and the first
      comer if the board was empty. */
  lemma JoinLaw(r: Room, seat: Option<Seat>, score: uint32)
    ensures var r1 := Apply(r, Joins(seat, score));
            if seat.Some? && r.At(seat.value) == None && forall s: Seat :: !r.Has(s, Playing) && !r.Has(s, Ended)
            then && r1.At(seat.value) == Some(Player(Ready, score))
                 && (forall s: Seat :: s != seat.value ==> r1.At(s) == r.At(s))
                 && r1.first == (if forall s: Seat :: r.At(s) == None then seat else r.first)
                 && SameRecord(r, r1)
            else r1 == r
  {
    EmptyBoard(r);
    if seat.Some? && r.At(seat.value) == None {
      var r1 := r.Put(seat.value, Some(Player(NotStart, score))).SetStatus(seat.value, Ready);
      assert r1.Occupied() == r.Occupied() + 1;
    }
  }

  /** A move without a capture clears the record; a user who moves when fewer than two are playing has ended. */
  lemma PlainMoveLaw(r: Room, src: Seat, target: Option<Seat>)
    requires r.At(src).Some?
    ensures var r1 := Apply(r, Moves(src, false, target));
            var goesOn := exists s: Seat, t: Seat :: s != t && r.Has(s, Playing) && r.Has(t, Playing);
            && r1.winner == None && r1.loser == None
            && r1.At(src) == Some(if goesOn then r.At(src).value else Player(Ended, r.At(src).value.score))
            && (forall s: Seat :: s != src ==> r1.At(s) == r.At(s))
            && r1.first == r.first && r1.totalTime == r.totalTime && r1.stepTime == r.stepTime
  {
    TwoArePlaying(r);
  }

  lemma TwoArePlaying(r: Room)
    ensures r.PlayingCount() > 1 <==> exists s: Seat, t: Seat :: s != t && r.Has(s, Playing) && r.Has(t, Playing)
  {
    if r.PlayingCount() > 1 {
      var s, t := if r.Has(Left, Playing) then Left else Right, if r.Has(Bottom, Playing) then Bottom else Right;
      assert s != t && r.Has(s, Playing) && r.Has(t, Playing);
    }
  }

  /** A capture goes on record, moves ten points and ends the loser; with fewer than two users left playing, it
      ends the winner too. */
  lemma CaptureLaw(r: Room, src: Seat, target: Seat)
    requires r.At(src).Some? && r.At(target).Some? && src != target
    ensures var r1 := Apply(r, Moves(src, true, Some(target)));
            var winner, loser := r.At(src).value, r.At(target).value;
            var goesOn := exists s: Seat, t: Seat ::
                            s != t && s != target && t != target && r.Has(s, Playing) && r.Has(t, Playing);
            && r1.winner == Some(src) && r1.loser == Some(target)
            && r1.At(src) == Some(Player(if goesOn then winner.status else Ended,
                                         (winner.score as int + 10) % 0x1_0000_0000))
            && r1.At(target) == Some(Player(Ended, (loser.score as int - 10) % 0x1_0000_0000))
            && (forall s: Seat :: s != src && s != target ==> r1.At(s) == r.At(s))
            && r1.first == r.first && r1.totalTime == r.totalTime && r1.stepTime == r.stepTime
  {
    var captured := Capture(r, src, Some(target));
    TwoArePlaying(captured);
    assert forall s: Seat :: captured.Has(s, Playing) <==> s != target && r.Has(s, Playing);
    hide Plus, Minus;
    SumsOfTen(r, src, target);
  }

  /** A capture that names an empty seat, or no seat, earns the ten points all the same. */
  lemma CaptureOfNobodyLaw(r: Room, src: Seat, target: Option<Seat>)
    requires r.At(src).Some? && (target.Some? ==> r.At(target.value) == None)
    ensures var r1 := Apply(r, Moves(src, true, target));
            var goesOn := exists s: Seat, t: Seat :: s != t && r.Has(s, Playing) && r.Has(t, Playing);
            && r1.winner == Some(src) && r1.loser == target
            && r1.At(src) == Some(Player(if goesOn then r.At(src).value.status else Ended,
                                         (r.At(src).value.score as int + 10) % 0x1_0000_0000))
            && (forall s: Seat :: s != src ==> r1.At(s) == r.At(s))
            && r1.first == r.first && r1.totalTime == r.totalTime && r1.stepTime == r.stepTime
  {
    TwoArePlaying(Capture(r, src, target));
    TwoArePlaying(r);
    assert forall s: Seat :: Capture(r, src, target).Has(s, Playing) <==> r.Has(s, Playing);
    SumsOfTen(r, src, src);
    hide Plus, Minus;
  }

  /** A user who captures himself has ended and keeps the score. */
  lemma CaptureOfOneselfLaw(r: Room, src: Seat)
    requires r.At(src).Some?
    ensures var r1 := Apply(r, Moves(src, true, Some(src)));
            && r1.winner == r1.loser == Some(src) && r1.At(src) == Some(Player(Ended, r.At(src).value.score))
            && (forall s: Seat :: s != src ==> r1.At(s) == r.At(s))
            && r1.first == r.first && r1.totalTime == r.totalTime && r1.stepTime == r.stepTime
  {
    ScoresCancel(r.At(src).value.score, WIN);
    hide Plus, Minus;
  }

  lemma SumsOfTen(r: Room, src: Seat, target: Seat)
    requires r.At(src).Some? && r.At(target).Some?
    ensures Plus(r.At(src).value.score, WIN) as int == (r.At(src).value.score as int + 10) % 0x1_0000_0000
    ensures Minus(r.At(target).value.score, WIN) as int == (r.At(target).value.score as int - 10) % 0x1_0000_0000
  {
  }

  /** The turn goes from left to bottom, from bottom to right and from right to left, past a seat whose user is not
      playing; to nobody when fewer than two users are playing after the move. */
  lemma TokenLaw(r: Room, src: Seat, isWinner: bool, target: Option<Seat>)
    requires r.At(src).Some?
    ensures var r1 := Apply(r, Moves(src, isWinner, target));
            Token(r, src, isWinner, target) ==
            (if r1.PlayingCount() < 2 then None
             else match src
                  case Left => Some(if r1.Has(Bottom, Playing) then Bottom else Right)
                  case Bottom => Some(if r1.Has(Right, Playing) then Right else Left)
                  case Right => Some(if r1.Has(Left, Playing) then Left else Bottom))
  {
    hide Plus, Minus, Move;
  }

  lemma ReconcileLaw(r: Room, isRequest: bool, applyOrReply: nat, all: bool)
    ensures var r1 := Apply(r, Reconciles(isRequest, applyOrReply, all));
            if all && (isRequest || applyOrReply == 0)
            then && (forall s: Seat :: r1.At(s) == if r.At(s) == None then None
                                                   else Some(Player(Ended, r.At(s).value.score)))
                 && r1.first == r.first && SameRecord(r, r1)
            else r1 == r
  {
  }

  /** An undo takes effect exactly for an accepted response to a capture on record: the ten points go back and the
      loser plays again. */
  lemma UndoLaw(r: Room, repOrRespon: nat, accepted: bool)
    requires Enabled(r, Undoes(repOrRespon, accepted))
    ensures var r1 := Apply(r, Undoes(repOrRespon, accepted));
            if repOrRespon == 1 && accepted && r.winner.Some?
            then var w, l := r.winner.value, r.loser.value;
                 && (if w == l then r1.At(l) == Some(Player(Playing, r.At(l).value.score))
                     else && r1.At(w) == Some(Player(r.At(w).value.status,
                                                     (r.At(w).value.score as int - 10) % 0x1_0000_0000))
                          && r1.At(l) == Some(Player(Playing, (r.At(l).value.score as int + 10) % 0x1_0000_0000)))
                 && (forall s: Seat :: s != w && s != l ==> r1.At(s) == r.At(s))
                 && r1.first == r.first && SameRecord(r, r1)
            else r1 == r
  {
    if repOrRespon == 1 && accepted && r.winner.Some? {
      SumsOfTen(r, r.loser.value, r.winner.value);
      ScoresCancel(r.At(r.winner.value).value.score, WIN);
      hide Plus, Minus;
    }
  }

  /** A ready user has begun, and once all three have, all three play. The times are the first comer's. */
  lemma ReadyLaw(r: Room, src: Option<Seat>, times: Option<Times>)
    ensures var r1 := Apply(r, IsReady(src, times));
            var start := forall s: Seat :: r.At(s).Some? && (src == Some(s) || r.Has(s, Began));
            && (forall s: Seat :: r1.At(s) == if r.At(s) == None then None
                                              else if start then Some(Player(Playing, r.At(s).value.score))
                                              else if src == Some(s) then Some(Player(Began, r.At(s).value.score))
                                              else r.At(s))
            && r1.totalTime == (if src == r.first && times.Some? then times.value.total else r.totalTime)
            && r1.stepTime == (if src == r.first && times.Some? then times.value.step else r.stepTime)
            && r1.first == r.first && r1.winner == r.winner && r1.loser == r.loser
  {
    var marked := MarkReady(r, src);
    assert marked.AllBegan() <==> forall s: Seat :: marked.Has(s, Began);
  }

  /** A user who has ended is ready again if the game of the board that the message names has begun. */
  lemma AgainLaw(r: Room, who: Seat, began: bool)
    ensures var r1 := Apply(r, PlaysAgain(who, began));
            && (forall s: Seat :: r1.At(s) == if s == who && began && r.Has(s, Ended)
                                              then Some(Player(Ready, r.At(s).value.score)) else r.At(s))
            && r1.first == r.first && SameRecord(r, r1)
  {
  }

  // ---------- Leaving ----------

  /** `t` plays, and nobody else but perhaps `s`. */
  ghost predicate PlaysAloneBut(r: Room, t: Seat, s: Seat) {
    r.Has(t, Playing) && forall u: Seat :: u != s && u != t ==> !r.Has(u, Playing)
  }

  /** What becomes of the user at `t` when the one at `s` is gone: the last one playing gets ten points and has
      ended; all have ended if the game is over. */
  ghost function Remaining(r: Room, t: Seat, s: Seat, over: bool): Option<Player> {
    if r.At(t) == None then None
    else if PlaysAloneBut(r, t, s) then Some(Player(Ended, (r.At(t).value.score as int + 10) % 0x1_0000_0000))
    else if over then Some(Player(Ended, r.At(t).value.score))
    else r.At(t)
  }

  lemma SettlingLaw(r: Room, marked: Room, s: Seat, over: bool)
    requires forall t: Seat :: t != s ==> marked.At(t) == r.At(t)
    requires !marked.Has(s, Playing) && !marked.Has(s, Began)
    ensures var r1 := SettleAfterLeave(marked, over);
            && (forall t: Seat :: t != s ==> r1.At(t) == Remaining(r, t, s, over))
            && (r1.At(s) == if over && marked.At(s).Some? then Some(Player(Ended, marked.At(s).value.score))
                            else marked.At(s))
            && r1.first == marked.first && SameRecord(marked, r1)
  {
    if marked.PlayingCount() == 1 {
      var t := OnlyPlaying(marked);
      assert t != s && PlaysAloneBut(r, t, s);
      assert Plus(marked.At(t).value.score, WIN) as int == (marked.At(t).value.score as int + 10) % 0x1_0000_0000;
    }
    forall t: Seat | t != s && PlaysAloneBut(r, t, s)
      ensures marked.PlayingCount() == 1 && OnlyPlaying(marked) == t
    {
      assert r.Has(Left, Playing) ==> Left == s || Left == t;
      assert r.Has(Right, Playing) ==> Right == s || Right == t;
      assert r.Has(Bottom, Playing) ==> Bottom == s || Bottom == t;
      assert marked.At(t) == r.At(t);
      assert marked.Has(Left, Playing) <==> Left == t;
      assert marked.Has(Right, Playing) <==> Right == t;
      assert marked.Has(Bottom, Playing) <==> Bottom == t;
    }
    hide Plus;
  }

  /** A user who leaves frees the seat; one who was playing ends the game for everybody. */
  lemma LeaveLaw(r: Room, s: Seat)
    requires r.At(s).Some?
    ensures var r1 := Apply(r, Leaves(s));
            && r1.At(s) == None && (forall t: Seat :: t != s ==> r1.At(t) == Remaining(r, t, s, r.Has(s, Playing)))
            && r1.first == (if r.first == Some(s) then None else r.first) && SameRecord(r, r1)
  {
    SettlingLaw(r, Vacate(Penalised(r, s), s), s, r.IsPlaying(s));
    hide Plus, Minus, SettleAfterLeave;
  }

  /** A user who gives up stays, has ended, and loses thirty points if the game was on. */
  lemma ResignLaw(r: Room, s: Seat)
    requires r.At(s).Some?
    ensures var r1 := Apply(r, Resigns(s));
            && r1.At(s) == Some(Player(Ended, if r.Has(s, Playing)
                                              then (r.At(s).value.score as int - 30) % 0x1_0000_0000
                                              else r.At(s).value.score))
            && (forall t: Seat :: t != s ==> r1.At(t) == Remaining(r, t, s, r.Has(s, Playing)))
            && r1.first == r.first && SameRecord(r, r1)
  {
    assert Minus(r.At(s).value.score, QUIT_PENALTY) as int == (r.At(s).value.score as int - 30) % 0x1_0000_0000;
    SettlingLaw(r, Penalised(r, s).SetStatus(s, Ended), s, r.IsPlaying(s));
    hide Plus, Minus, SettleAfterLeave;
  }

  /** A dropped user leaves without ending the game of the others. */
  lemma DropLaw(r: Room, s: Seat)
    requires r.At(s).Some?
    ensures var r1 := Apply(r, IsDropped(s));
            && r1.At(s) == None && (forall t: Seat :: t != s ==> r1.At(t) == Remaining(r, t, s, false))
            && r1.first == (if r.first == Some(s) then None else r.first) && SameRecord(r, r1)
  {
    var marked := r.SetStatus(s, NotStart);
    SettlingLaw(r, Vacate(marked, s), s, false);
    hide Plus, Minus, SettleAfterLeave;
  }

  /** The leaver takes along the score, less thirty points for one who was playing. */
  lemma LeaverLaw(r: Room, s: Seat)
    requires r.At(s).Some?
    ensures Leaver(r, s)
         == Player(NotStart, if r.Has(s, Playing) then (r.At(s).value.score as int - 30) % 0x1_0000_0000
                             else r.At(s).value.score)
  {
  }

  /** When a playing user leaves or gives up, nobody is left playing: everybody at the table has ended. */
  lemma QuittingEndsTheGame(r: Room, s: Seat, t: Seat)
    requires r.Has(s, Playing)
    ensures Apply(r, Leaves(s)).At(t).Some? ==> Apply(r, Leaves(s)).Has(t, Ended)
    ensures Apply(r, Resigns(s)).At(t).Some? ==> Apply(r, Resigns(s)).Has(t, Ended)
  {
    LeaveLaw(r, s);
    ResignLaw(r, s);
    hide Apply;
  }
}
