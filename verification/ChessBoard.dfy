/** The objects of chessboard.cpp and usersession.cpp: sessions, and boards that point to the sessions seated at
    them. Every handler updates the objects in place and is proved to do to the board's abstract value, `View`,
    what the functions of module Rooms say. */
module ChessBoards {
  import opened Wrappers
  import opened Bytes
  import opened Rooms
  import opened RoomLaws

  datatype StateType = Auth | DownAd | GameReady | GamePlay

  class UserSession {
    var clifd: int
    var locate: Option<Seat> // None: a number that is no location
    var currChessBoard: ChessBoard?
    var state: Option<StateType>
    var nextState: Option<StateType>
    var status: Status
    var score: uint32

    // LOCATION_UNKNOWN is LOCATION_LEFT.
    constructor ()
      ensures clifd == -1 && currChessBoard == null && state == None && nextState == None
      ensures locate == Some(Left) && status == NotStart && score == 0
    {
      clifd, locate, currChessBoard, state, nextState, status, score := -1, Some(Left), null, None, None, NotStart, 0;
    }

    /** The first part of DestructResource. */
    method LeaveCurrentBoard()
      requires Leavable(this)
      modifies `currChessBoard, `score, `status
      modifies if currChessBoard == null then {} else {currChessBoard}
      modifies (if currChessBoard == null then {} else currChessBoard.Users())`status
      modifies (if currChessBoard == null then {} else currChessBoard.Users())`score
      ensures currChessBoard == null
      ensures old(currChessBoard) != null ==>
                LeftBoard(old(currChessBoard), this) && this !in old(currChessBoard).Users()
    {
      hide Leave, Leaver;
      if currChessBoard != null {
        currChessBoard.LeaveRoomHandle(this);
        currChessBoard := null;
      }
    }

    /** DestructResource */
    method DestructResource()
      requires Leavable(this)
      modifies `currChessBoard, `state, `nextState, `clifd, `score, `status
      modifies if currChessBoard == null then {} else {currChessBoard}
      modifies (if currChessBoard == null then {} else currChessBoard.Users())`status
      modifies (if currChessBoard == null then {} else currChessBoard.Users())`score
      ensures Clean(this) && (old(clifd) != -1 ==> score == 0)
      ensures old(currChessBoard) != null ==> LeftBoard(old(currChessBoard), this)
    {
      hide Leave, Leaver;
      LeaveCurrentBoard();
      if state.Some? {
        state, nextState := None, None;
      }
      if clifd != -1 {
        clifd, score := -1, 0;
      }
    }

    method IncreaseScore(points: nat := WIN)
      modifies `score
      ensures score == Plus(old(score), points) && score as int == (old(score) as int + points) % 0x1_0000_0000
    {
      score := Plus(score, points);
    }

    method ReduceScore(points: nat := WIN)
      modifies `score
      ensures score == Minus(old(score), points) && score as int == (old(score) as int - points) % 0x1_0000_0000
    {
      score := Minus(score, points);
    }
  }

  // What a board loses when a session leaves it.
  twostate predicate LeftBoard(b: ChessBoard, s: UserSession)
    reads b, b.Users(), s
  {
    && s.locate == old(s.locate) && s.locate.Some? && old(b.UserAt(s.locate.value)) == s
    && b.Valid() && b.View() == Leave(old(b.View()), s.locate.value) && b.log == old(b.log)
    && forall t: Seat :: b.UserAt(t) == if t == s.locate.value then null else old(b.UserAt(t))
  }

  /** A session that holds nothing: no board, no state, no descriptor. */
  ghost predicate Clean(s: UserSession)
    reads s
  {
    s.currChessBoard == null && s.state == None && s.nextState == None && s.clifd == -1
  }

  /** What DestructResource relies on. */
  ghost predicate Leavable(s: UserSession)
    reads s, if s.currChessBoard == null then {} else {s.currChessBoard} + s.currChessBoard.Users()
  {
    && (s.state == None ==> s.nextState == None)
    && (s.currChessBoard != null ==>
          s.currChessBoard.Valid() && s.locate.Some? && s.currChessBoard.UserAt(s.locate.value) == s)
  }

  ghost function PlayerOf(u: UserSession?): Option<Player>
    reads (if u == null then {} else {u})`status, (if u == null then {} else {u})`score
  {
    if u == null then None else Some(Player(u.status, u.score))
  }

  class ChessBoard {
    var leftUser: UserSession?
    var rightUser: UserSession?
    var bottomUser: UserSession?
    var currUserNum: nat
    var first: Option<Seat>  // None: LOCATION_MAX
    var winner: Option<Seat>
    var loser: Option<Seat>
    var totalTime: int
    var stepTime: int
    ghost var log: seq<Event>

    constructor ()
      ensures Valid() && Users() == {} && View() == EMPTY && log == []
    {
      leftUser, rightUser, bottomUser, currUserNum := null, null, null, 0;
      first, winner, loser, totalTime, stepTime, log := None, None, None, 0, 0, [];
      new;
      assert View() == EMPTY;
    }

    /** GetUserByLocation */
    function UserAt(s: Seat): UserSession?
      reads this
    {
      match s
      case Left => leftUser
      case Right => rightUser
      case Bottom => bottomUser
    }

    ghost function Users(): set<UserSession>
      reads this
    {
      (if leftUser == null then {} else {leftUser})
      + (if rightUser == null then {} else {rightUser})
      + (if bottomUser == null then {} else {bottomUser})
    }

    ghost function View(): Room
      reads this, Users()`status, Users()`score
    {
      Room(PlayerOf(leftUser), PlayerOf(rightUser), PlayerOf(bottomUser), first, winner, loser, totalTime, stepTime)
    }

    /** Every user knows the seat they sit at, so nobody sits at two; the user count is the number of occupied
        seats; the first comer is seated. */
    ghost predicate Valid()
      reads this, Users()`locate, Users()`status, Users()`score
    {
      && (leftUser != null ==> leftUser.locate == Some(Left))
      && (rightUser != null ==> rightUser.locate == Some(Right))
      && (bottomUser != null ==> bottomUser.locate == Some(Bottom))
      && currUserNum == View().Occupied()
      && FirstIsSeated(View())
    }

    /** The board is where its history leads. */
    ghost predicate Logged()
      reads this, Users()
    {
      Replay(EMPTY, log) == Some(View())
    }

    lemma CountUsers()
      requires Valid()
      ensures |Users()| == currUserNum <= 3
    {
    }

    function GetUserNum(): nat
      reads this
    {
      currUserNum
    }

    function GetActiveUsersNum(): (n: nat)
      reads this, Users()
      ensures n == View().PlayingCount()
    {
      One(leftUser != null && leftUser.status == Playing)
      + One(rightUser != null && rightUser.status == Playing)
      + One(bottomUser != null && bottomUser.status == Playing)
    }

    predicate GameBegan()
      reads this, Users()
      ensures GameBegan() == View().GameBegan()
    {
      var r :=
        || (leftUser != null && leftUser.status in {Playing, Ended})
        || (rightUser != null && rightUser.status in {Playing, Ended})
        || (bottomUser != null && bottomUser.status in {Playing, Ended});
      assert View().Has(Left, Playing) || View().Has(Left, Ended) ==> r;
      assert View().Has(Right, Playing) || View().Has(Right, Ended) ==> r;
      assert View().Has(Bottom, Playing) || View().Has(Bottom, Ended) ==> r;
      r
    }

    /** AddUser */
    method AddUser(user: UserSession) returns (ok: bool)
      requires Valid() && user !in Users()
      modifies `leftUser, `rightUser, `bottomUser, `currUserNum
      ensures ok == (old(currUserNum) != 3 && user.locate.Some? && old(UserAt(user.locate.value)) == null)
      ensures Valid()
      ensures View() == if ok then old(View()).Put(user.locate.value, PlayerOf(user)) else old(View())
      ensures forall s: Seat :: UserAt(s) == if ok && user.locate == Some(s) then user else old(UserAt(s))
    {
      ok := false;
      if currUserNum != 3 && user.locate.Some? {
        match user.locate.value
        case Left =>
          if leftUser == null {
            leftUser, ok, currUserNum := user, true, currUserNum + 1;
          }
        case Right =>
          if rightUser == null {
            rightUser, ok, currUserNum := user, true, currUserNum + 1;
          }
        case Bottom =>
          if bottomUser == null {
            bottomUser, ok, currUserNum := user, true, currUserNum + 1;
          }
      }
    }

    method ClearSeat(s: Seat)
      requires UserAt(s) != null && currUserNum > 0
      modifies `leftUser, `rightUser, `bottomUser, `currUserNum
      ensures currUserNum == old(currUserNum) - 1
      ensures forall t: Seat :: UserAt(t) == if t == s then null else old(UserAt(t))
    {
      match s
      case Left => leftUser, currUserNum := null, currUserNum - 1;
      case Right => rightUser, currUserNum := null, currUserNum - 1;
      case Bottom => bottomUser, currUserNum := null, currUserNum - 1;
    }

    /** LeaveOutRoom */
    method LeaveOutRoom(user: UserSession)
      requires Valid() && user.locate.Some? && UserAt(user.locate.value) == user
      modifies `leftUser, `rightUser, `bottomUser, `currUserNum, `first
      ensures Valid() && Users() == old(Users()) - {user}
      ensures View() == Vacate(old(View()), user.locate.value)
      ensures forall s: Seat :: UserAt(s) == if user.locate == Some(s) then null else old(UserAt(s))
    {
      ClearSeat(user.locate.value);
      assert UserAt(Left) == leftUser && UserAt(Right) == rightUser && UserAt(Bottom) == bottomUser;
      if user.locate == first {
        first := None;
      }
    }

    // Assignments to the fields of a seated user, seen from the board.

    method SetUserStatus(s: Seat, status: Status)
      requires Valid() && UserAt(s) != null
      modifies UserAt(s)`status
      ensures Valid() && View() == old(View()).SetStatus(s, status)
    {
      UserAt(s).status := status;
    }

    method IncreaseUserScore(s: Seat, points: nat := WIN)
      requires Valid() && UserAt(s) != null
      modifies UserAt(s)`score
      ensures Valid() && View() == old(View()).Credit(s, points)
    {
      hide Plus;
      UserAt(s).IncreaseScore(points);
    }

    method ReduceUserScore(s: Seat, points: nat := WIN)
      requires Valid() && UserAt(s) != null
      modifies UserAt(s)`score
      ensures Valid() && View() == old(View()).Debit(s, points)
    {
      hide Minus;
      UserAt(s).ReduceScore(points);
    }

    /** The seat that MoveChessHandle announces when more than one user is still playing. */
    function AnnouncedSeat(src: Seat): (t: Seat)
      reads this, Users()
      ensures View().PlayingCount() > 1 ==> t == NextPlaying(View(), src)
    {
      match src
      case Left => if bottomUser == null || bottomUser.status != Playing then Right else Bottom
      case Bottom => if rightUser == null || rightUser.status != Playing then Left else Right
      case Right => if leftUser == null || leftUser.status != Playing then Bottom else Left
    }

    /** The first part of MoveChessHandle: the recent winner and loser, and the points they exchange. */
    method RecordCapture(src: Seat, isWinner: bool, target: Option<Seat>)
      requires Valid() && UserAt(src) != null
      modifies `winner, `loser, Users()`status, Users()`score
      ensures Valid()
      ensures View() == if isWinner then Capture(old(View()), src, target)
                        else old(View()).(winner := None, loser := None)
    {
      hide Plus, Minus;
      if isWinner {
        winner, loser := Some(src), target;
        IncreaseUserScore(src);
        if target.Some? && UserAt(target.value) != null {
          ReduceUserScore(target.value);
          SetUserStatus(target.value, Ended);
        }
      } else {
        winner, loser := None, None;
      }
    }

    /** MoveChessHandle, with the seat it announces. */
    method MoveChessHandle(src: Seat, isWinner: bool, target: Option<Seat>) returns (token: Option<Seat>)
      requires Valid() && UserAt(src) != null
      modifies `winner, `loser, Users()`status, Users()`score
      ensures Valid() && View() == Move(old(View()), src, isWinner, target)
      ensures token == Token(old(View()), src, isWinner, target)
      ensures token == (if View().PlayingCount() < 2 then None
                        else match src
                             case Left => Some(if View().Has(Bottom, Playing) then Bottom else Right)
                             case Bottom => Some(if View().Has(Right, Playing) then Right else Left)
                             case Right => Some(if View().Has(Left, Playing) then Left else Bottom))
    {
      hide Plus, Minus, Capture;
      TokenLaw(View(), src, isWinner, target);
      RecordCapture(src, isWinner, target);
      if GetActiveUsersNum() > 1 {
        token := Some(AnnouncedSeat(UserAt(src).locate.value));
      } else {
        token := None;
        SetUserStatus(src, Ended);
      }
    }

    method SetAllEnded()
      requires Valid()
      modifies Users()`status
      ensures Valid() && View() == old(View()).SetAll(Ended)
    {
      if leftUser != null {
        SetUserStatus(Left, Ended);
      }
      if rightUser != null {
        SetUserStatus(Right, Ended);
      }
      if bottomUser != null {
        SetUserStatus(Bottom, Ended);
      }
    }

    /** ReconciledHandle, as far as it changes anything. */
    method ReconciledHandle(isRequest: bool, applyOrReply: nat, all: bool)
      requires Valid()
      modifies Users()`status
      ensures Valid() && View() == Reconcile(old(View()), isRequest, applyOrReply, all)
    {
      if isRequest || applyOrReply == 0 {
        if all {
          SetAllEnded();
        }
      }
    }

    /** UndoHandle, as far as it changes anything. */
    method UndoHandle(repOrRespon: nat, accepted: bool)
      requires Valid() && Enabled(View(), Undoes(repOrRespon, accepted))
      modifies Users()`status, Users()`score
      ensures Valid() && View() == Undo(old(View()), repOrRespon, accepted)
    {
      hide Plus, Minus;
      if repOrRespon == 1 && accepted && winner.Some? {
        ReduceUserScore(winner.value);
        IncreaseUserScore(loser.value);
        SetUserStatus(loser.value, Playing);
      }
    }

    /** GameReadyHandle */
    method GameReadyHandle(src: Option<Seat>, times: Option<Times>)
      requires Valid()
      modifies `totalTime, `stepTime, Users()`status
      ensures Valid() && View() == GetReady(old(View()), src, times)
      ensures totalTime == if src == first && times.Some? then times.value.total else old(totalTime)
      ensures stepTime == if src == first && times.Some? then times.value.step else old(stepTime)
    {
      if src.Some? && UserAt(src.value) != null {
        SetUserStatus(src.value, Began);
      }
      if first == src && times.Some? {
        totalTime, stepTime := times.value.total, times.value.step;
      }
      StartIfAllBegan();
    }

    /** The end of GameReadyHandle. */
    method StartIfAllBegan()
      requires Valid()
      modifies Users()`status
      ensures Valid() && View() == if old(View()).AllBegan() then old(View()).SetAll(Playing) else old(View())
    {
      var beganNum := BeganNum();
      if beganNum == 3 {
        SetUserStatus(Right, Playing);
        SetUserStatus(Left, Playing);
        SetUserStatus(Bottom, Playing);
      }
    }

    /** The count that GameReadyHandle takes while it fills in the reply. */
    method BeganNum() returns (n: nat)
      requires Valid()
      ensures n == 3 <==> View().AllBegan()
    {
      n := 0;
      if leftUser != null && leftUser.status == Began {
        n := n + 1;
      }
      if rightUser != null && rightUser.status == Began {
        n := n + 1;
      }
      if bottomUser != null && bottomUser.status == Began {
        n := n + 1;
      }
    }

    /** GameAgainHandle: the message names a board, not necessarily this one, and a seat of this one. */
    method GameAgainHandle(named: ChessBoard, seat: Seat)
      requires Valid()
      modifies Users()`status
      ensures Valid() && View() == PlayAgain(old(View()), seat, old(named.GameBegan()))
    {
      if UserAt(seat) != null {
        if named.GameBegan() && UserAt(seat).status == Ended {
          SetUserStatus(seat, Ready);
        }
      }
    }

    /** GetOnlyActiveUser */
    method GetOnlyActiveUser() returns (user: UserSession?)
      requires Valid()
      ensures View().PlayingCount() == 1 ==> user != null && user == UserAt(OnlyPlaying(View()))
      ensures View().PlayingCount() != 1 ==> user == null
    {
      user := null;
      if leftUser != null && leftUser.status == Playing {
        user := leftUser;
      }
      if rightUser != null && rightUser.status == Playing {
        user := rightUser;
      }
      if bottomUser != null && bottomUser.status == Playing {
        user := bottomUser;
      }
      if GetActiveUsersNum() != 1 {
        user := null;
      }
    }

    /** The seat of a user of this board. */
    function SeatOf(user: UserSession): (s: Seat)
      requires Valid() && user in Users()
      reads this, Users()
      ensures UserAt(s) == user
    {
      user.locate.value
    }

    /** The end of LeaveRoomHandle. */
    method SettleGame(wasPlaying: bool)
      requires Valid()
      modifies Users()`status, Users()`score
      ensures Valid() && View() == SettleAfterLeave(old(View()), wasPlaying)
    {
      hide Plus, Minus;
      var last := GetOnlyActiveUser();
      if last != null {
        IncreaseUserScore(SeatOf(last));
        SetUserStatus(SeatOf(last), Ended);
      }
      if wasPlaying {
        SetAllEnded();
      }
    }

    /** The first part of LeaveRoomHandle: the penalty, and the leaver's new status or empty seat. */
    method MarkLeaver(user: UserSession, reallyLeave: bool) returns (wasPlaying: bool)
      requires Valid() && user.locate.Some? && UserAt(user.locate.value) == user
      modifies `leftUser, `rightUser, `bottomUser, `currUserNum, `first, user`status, user`score
      ensures Valid() && wasPlaying == old(View()).IsPlaying(user.locate.value)
      ensures Player(user.status, user.score)
           == Penalised(old(View()), user.locate.value).At(user.locate.value).value
              .(status := if reallyLeave then NotStart else Ended)
      ensures var s := user.locate.value;
              if reallyLeave
              then && View() == Vacate(Penalised(old(View()), s), s) && Users() == old(Users()) - {user}
                   && forall t: Seat :: UserAt(t) == if t == s then null else old(UserAt(t))
              else && View() == Penalised(old(View()), s).SetStatus(s, Ended) && Users() == old(Users())
                   && forall t: Seat :: UserAt(t) == old(UserAt(t))
    {
      hide Plus, Minus, FirstIsSeated;
      var s := SeatOf(user);
      wasPlaying := user.status == Playing;
      if wasPlaying {
        ReduceUserScore(s, QUIT_PENALTY);
      }
      if reallyLeave {
        SetUserStatus(s, NotStart);
        LeaveOutRoom(user);
      } else {
        SetUserStatus(s, Ended);
      }
    }

    /** LeaveRoomHandle */
    method LeaveRoomHandle(user: UserSession, reallyLeave: bool := true)
      requires Valid() && user.locate.Some? && UserAt(user.locate.value) == user
      modifies `leftUser, `rightUser, `bottomUser, `currUserNum, `first, Users()`status, Users()`score
      ensures Valid()
      ensures var s := user.locate.value;
              if reallyLeave
              then && View() == Leave(old(View()), s) && Users() == old(Users()) - {user}
                   && Player(user.status, user.score) == Leaver(old(View()), s)
                   && forall t: Seat :: UserAt(t) == if t == s then null else old(UserAt(t))
              else && View() == Resign(old(View()), s)
                   && forall t: Seat :: UserAt(t) == old(UserAt(t))
    {
      hide Plus, Minus, SettleAfterLeave, Penalised, Vacate, FirstIsSeated;
      var wasPlaying := MarkLeaver(user, reallyLeave);
      SettleGame(wasPlaying);
    }

    /** Whom a give-up message removes from the board. */
    ghost function Evicted(src: Seat, exit: bool): set<UserSession>
      reads this
    {
      if exit && UserAt(src) != null then {UserAt(src)} else {}
    }

    /** GiveUpHandle */
    method GiveUpHandle(src: Seat, exit: bool)
      requires Valid()
      modifies `leftUser, `rightUser, `bottomUser, `currUserNum, `first
      modifies Users()`status, Users()`score
      modifies Evicted(src, exit)`nextState, Evicted(src, exit)`currChessBoard
      ensures Valid()
      ensures View() == if exit then Leave(old(View()), src) else Resign(old(View()), src)
      ensures forall t: Seat :: UserAt(t) == if exit && t == src then null else old(UserAt(t))
      ensures forall u :: u in old(Evicted(src, exit)) ==> u.currChessBoard == null && u.nextState == Some(GameReady)
    {
      var user := UserAt(src);
      if user != null {
        if exit {
          LeaveRoomHandle(user, true);
          user.nextState := Some(GameReady);
          user.currChessBoard := null;
        } else {
          LeaveRoomHandle(user, false);
        }
      }
    }
  }

  /** What GameRequestHandle does once the seat is granted. */
  method WelcomeUser(b: ChessBoard, s: UserSession, seat: Seat)
    requires b.Valid() && b.UserAt(seat) == s
    modifies b`first, s`status, s`currChessBoard, s`nextState
    ensures b.Valid() && b.View() == Welcome(old(b.View()), seat)
    ensures s.currChessBoard == b && s.nextState == Some(GamePlay)
  {
    b.SetUserStatus(seat, Ready);
    s.currChessBoard := b;
    if b.GetUserNum() == 1 {
      b.first := Some(seat);
    }
    s.nextState := Some(GamePlay);
  }

  /** The part of GameRequestHandle that follows the lookup of the board. The location is stored in the session
      whether or not the seat is granted. */
  method RequestSeat(b: ChessBoard, s: UserSession, locate: Option<Seat>) returns (ok: bool)
    requires b.Valid() && s !in b.Users() && s.currChessBoard == null
    modifies b`leftUser, b`rightUser, b`bottomUser, b`currUserNum, b`first
    modifies s`locate, s`status, s`currChessBoard, s`nextState
    ensures b.Valid() && b.View() == Join(old(b.View()), locate, s.score)
    ensures ok == JoinAccepted(old(b.View()), locate)
    ensures forall t: Seat :: b.UserAt(t) == if ok && locate == Some(t) then s else old(b.UserAt(t))
    ensures s.locate == locate && s.currChessBoard == (if ok then b else null)
    ensures s.nextState == if ok then Some(GamePlay) else old(s.nextState)
  {
    s.locate := locate;
    if b.GameBegan() {
      return false;
    }
    ok := b.AddUser(s);
    if ok {
      WelcomeUser(b, s, locate.value);
    }
  }
}
