/** The running server with one worker thread: halls, boards, the sessions in use and the pool they come from.
    Accepting a connection, handling one message and closing a connection are the atomic steps. */
module Servers {
  import opened Wrappers
  import opened Bytes
  import opened Rooms
  import opened RoomLaws
  import opened ChessBoards
  import opened GameHalls
  import opened SessionPools

  datatype Msg =
    | Info                      // echo, hall summary, user info: answered in every state after login
    | HallInfoReq(hallId: nat)
    | ChessBoardReq
    | UserMsg
    | Unparsed                  // of a type the state handles, with a payload that does not parse
    | RequestPlay(hall: nat, board: nat, locate: Option<Seat>)
    | MoveChess(mover: Seat, isWinner: bool, target: Option<Seat>)
    | Reconciled(isRequest: bool, applyOrReply: nat, all: bool)
    | GiveUp(quitter: Option<Seat>, exit: bool)
    | UndoMsg(repOrRespon: nat, accepted: bool)
    | GameReadyReq(player: Option<Seat>, times: Option<Times>)
    | SystemMsg
    | OtherMsg

  /** What the states before the game answer to a message, and the score they read, if any; the database
      decides. */
  datatype LoginOutcome = LoginOutcome(handled: bool, advance: bool, score: Option<uint32>)

  // ---------- Sessions and boards agree ----------

  ghost predicate BoardOk(b: ChessBoard, sessions: set<UserSession>)
    reads b, b.Users()
  {
    b.Valid() && b.Users() <= sessions && forall u :: u in b.Users() ==> u.currChessBoard == b
  }

  /** A session in the Play state without a board: somebody else's give-up message has named its seat. It goes to
      the Ready state with its next message. */
  ghost predicate Stranded(s: UserSession)
    reads s
  {
    s.currChessBoard == null && s.state == Some(GamePlay) && s.nextState == Some(GameReady)
  }

  ghost predicate SessionOk(s: UserSession, boards: set<ChessBoard>)
    reads s, boards
  {
    if s.currChessBoard == null then
      Stranded(s) || (s.nextState == s.state && s.state != Some(GamePlay))
    else
      && s.state == Some(GamePlay) == s.nextState
      && s.currChessBoard in boards && s.locate.Some? && s.currChessBoard.UserAt(s.locate.value) == s
  }

  ghost predicate World(sessions: set<UserSession>, boards: set<ChessBoard>)
    reads sessions, boards
    reads set b, u | b in boards && u in b.Users() :: u
  {
    && (forall b :: b in boards ==> BoardOk(b, sessions))
    && (forall s :: s in sessions ==> SessionOk(s, boards))
  }

  /** Every board is where its history leads. */
  ghost predicate AllLogged(boards: set<ChessBoard>)
    reads boards, set b, u | b in boards && u in b.Users() :: u
  {
    forall b :: b in boards ==> b.Logged()
  }

  /** A session sits at seat L of board b exactly when b is its current board, L its location, and it is in the
      Play state. */
  lemma SeatedExactly(sessions: set<UserSession>, boards: set<ChessBoard>, s: UserSession, b: ChessBoard, l: Seat)
    requires World(sessions, boards) && s in sessions && b in boards
    ensures b.UserAt(l) == s <==> s.currChessBoard == b && s.locate == Some(l) && s.state == Some(GamePlay)
  {
    assert BoardOk(b, sessions) && SessionOk(s, boards);
    assert b.UserAt(l) == s ==> s in b.Users();
  }

  /** Nobody sits at two seats, of one board or of two. */
  lemma SeatedOnce(sessions: set<UserSession>, boards: set<ChessBoard>, b: ChessBoard, l: Seat, c: ChessBoard, m: Seat)
    requires World(sessions, boards) && b in boards && c in boards
    requires b.UserAt(l) != null && b.UserAt(l) == c.UserAt(m)
    ensures b == c && l == m
  {
    var s := b.UserAt(l);
    assert BoardOk(b, sessions) && s in b.Users();
    SeatedExactly(sessions, boards, s, b, l);
    SeatedExactly(sessions, boards, s, c, m);
  }

  /** A seat that stayed as it was, or was taken or left by `s`. */
  ghost predicate SeatChange(before: UserSession?, after: UserSession?, s: UserSession) {
    after == before || (before == null && after == s) || (before == s && after == null)
  }

  /** One step for `session` at `board`: the session took a seat, left it, or kept it, and is still in use or
      not. A single parameter of the two-state lemmas below. */
  datatype Change = Change(session: UserSession, board: ChessBoard, sessions: set<UserSession>,
                           boards: set<ChessBoard>, remaining: set<UserSession>)

  /** Apart from that seat, only the board itself and statuses and scores of its users changed. */
  twostate predicate OnlyTouches(d: Change)
    reads d.sessions, d.boards, d.board, d.board.Users()
  {
    && (forall c :: c in d.boards && c != d.board ==> unchanged(c))
    && (forall u :: u in d.sessions && u != d.session ==> unchanged(u`locate, u`currChessBoard, u`state, u`nextState))
    && (forall u :: u in d.sessions && u != d.session && u !in old(d.board.Users()) ==> unchanged(u))
    && d.board.Valid()
    && SeatChange(old(d.board.leftUser), d.board.leftUser, d.session)
    && SeatChange(old(d.board.rightUser), d.board.rightUser, d.session)
    && SeatChange(old(d.board.bottomUser), d.board.bottomUser, d.session)
  }

  /** A step from a state in which sessions and boards agree. */
  twostate predicate IsStep(d: Change)
    reads d.sessions, d.boards, d.board, d.board.Users(), d.session
  {
    && old(World(d.sessions, d.boards)) && d.session in d.sessions && d.board in d.boards && OnlyTouches(d)
    && (old(d.session.currChessBoard) == null || old(d.session.currChessBoard) == d.board)
    && d.sessions - {d.session} <= d.remaining <= d.sessions
    && (d.session in d.board.Users() ==> d.session in d.remaining && d.session.currChessBoard == d.board)
  }

  twostate lemma BoardKept(d: Change)
    requires IsStep(d)
    ensures BoardOk(d.board, d.remaining)
  {
    assert old(BoardOk(d.board, d.sessions));
    forall u | u in d.board.Users()
      ensures u in d.remaining && u.currChessBoard == d.board
    {
      var t := d.board.SeatOf(u);
      if u != d.session {
        assert old(d.board.UserAt(t)) == u;
      }
    }
  }

  /** A step, and a board that it does not concern. */
  datatype Beside = Beside(step: Change, other: ChessBoard)

  twostate lemma OtherKept(o: Beside)
    requires IsStep(o.step) && o.other in o.step.boards && o.other != o.step.board
    ensures BoardOk(o.other, o.step.remaining) && o.other.View() == old(o.other.View())
  {
    var d, c := o.step, o.other;
    assert old(BoardOk(d.board, d.sessions)) && old(BoardOk(c, d.sessions)) && c.Users() == old(c.Users());
    forall u | u in c.Users()
      ensures u in d.sessions && u != d.session && unchanged(u)
    {
      assert u in old(c.Users()) && old(u.currChessBoard) == c;
      assert u !in old(d.board.Users());
    }
  }

  twostate lemma OthersKept(d: Change)
    requires IsStep(d)
    ensures forall c :: c in d.boards && c != d.board ==> BoardOk(c, d.remaining) && c.View() == old(c.View())
  {
    forall c | c in d.boards && c != d.board
      ensures BoardOk(c, d.remaining) && c.View() == old(c.View())
    {
      OtherKept(Beside(d, c));
    }
  }

  twostate lemma SessionsKept(d: Change)
    requires IsStep(d)
    ensures forall u :: u in d.sessions && u != d.session ==> SessionOk(u, d.boards)
  {
    forall u | u in d.sessions && u != d.session
      ensures SessionOk(u, d.boards)
    {
      assert old(SessionOk(u, d.boards));
    }
  }

  /** Sessions and boards still agree, whether the session remains in use or not, and the other boards are as
      before. */
  twostate lemma WorldKept(d: Change)
    requires IsStep(d) && (d.session in d.remaining ==> SessionOk(d.session, d.boards))
    ensures World(d.remaining, d.boards)
    ensures forall c :: c in d.boards && c != d.board ==> c.View() == old(c.View())
    ensures old(AllLogged(d.boards)) && d.board.Logged() ==> AllLogged(d.boards)
  {
    BoardKept(d);
    OthersKept(d);
    SessionsKept(d);
  }

  // ---------- The history of every board ----------

  lemma EmptyBoardIsLogged(b: ChessBoard)
    requires b.View() == EMPTY && b.log == []
    ensures b.Logged()
  {
  }

  // Sessions and boards that a step leaves alone altogether.
  datatype Scene = Scene(sessions: set<UserSession>, boards: set<ChessBoard>)

  twostate lemma SceneKept(d: Scene)
    requires old(World(d.sessions, d.boards))
    requires forall c :: c in d.boards ==> unchanged(c)
    requires forall u :: u in d.sessions ==> unchanged(u)
    ensures World(d.sessions, d.boards)
    ensures forall c :: c in d.boards ==> c.View() == old(c.View())
    ensures old(AllLogged(d.boards)) ==> AllLogged(d.boards)
  {
    forall c | c in d.boards
      ensures BoardOk(c, d.sessions) && c.View() == old(c.View())
    {
      assert old(BoardOk(c, d.sessions));
    }
    forall u | u in d.sessions
      ensures SessionOk(u, d.boards)
    {
      assert old(SessionOk(u, d.boards));
    }
  }

  lemma ValuesWith(m: map<int, UserSession>, k: int, v: UserSession)
    requires k !in m
    ensures m[k := v].Values == m.Values + {v}
  {
    var n := m[k := v];
    assert n[k] == v;
    assert forall i :: i in m ==> n[i] == m[i];
    assert forall i :: i in n ==> i == k || n[i] == m[i];
  }

  lemma ValuesWithout(m: map<int, UserSession>, k: int)
    requires k in m && forall i :: i in m && i != k ==> m[i] != m[k]
    ensures (m - {k}).Values == m.Values - {m[k]}
  {
    var n := m - {k};
    assert forall i :: i in n ==> n[i] == m[i] != m[k];
    assert forall i :: i in m && i != k ==> n[i] == m[i];
  }

  /** A step that concerns one session without a board, and no board. */
  datatype Aside = Aside(session: UserSession, sessions: set<UserSession>, boards: set<ChessBoard>,
                         remaining: set<UserSession>)

  twostate lemma WorldKeptAside(d: Aside)
    requires old(World(d.sessions, d.boards)) && d.session in d.sessions
    requires d.sessions - {d.session} <= d.remaining <= d.sessions
    requires forall c :: c in d.boards ==> unchanged(c)
    requires forall u :: u in d.sessions && u != d.session ==> unchanged(u)
    requires old(d.session.currChessBoard) == null == d.session.currChessBoard
    requires d.session in d.remaining ==> SessionOk(d.session, d.boards)
    ensures World(d.remaining, d.boards)
    ensures forall c :: c in d.boards ==> c.View() == old(c.View())
    ensures old(AllLogged(d.boards)) ==> AllLogged(d.boards)
  {
    forall c | c in d.boards
      ensures BoardOk(c, d.remaining) && c.View() == old(c.View())
    {
      assert old(BoardOk(c, d.sessions));
      assert d.session !in c.Users();
    }
    forall u | u in d.remaining
      ensures SessionOk(u, d.boards)
    {
      assert old(SessionOk(u, d.boards));
    }
  }

  /** A board that nobody has sat down at yet. */
  ghost predicate Unused(b: ChessBoard)
    reads b, b.Users()
  {
    b.Valid() && b.Users() == {} && b.View() == EMPTY && b.log == []
  }

  /** Boards that have just been created disturb nobody. */
  lemma EmptyBoardsFit(sessions: set<UserSession>, boards: set<ChessBoard>, more: set<ChessBoard>)
    requires World(sessions, boards) && AllLogged(boards)
    requires forall b :: b in more && b !in boards ==> Unused(b)
    ensures World(sessions, boards + more) && AllLogged(boards + more)
  {
    forall b | b in boards + more
      ensures b.Logged()
    {
      if b !in boards {
        EmptyBoardIsLogged(b);
      }
    }
    forall s | s in sessions
      ensures SessionOk(s, boards + more)
    {
      assert SessionOk(s, boards);
    }
    forall b | b in boards + more
      ensures BoardOk(b, sessions)
    {
      assert b in boards ==> BoardOk(b, sessions);
    }
  }

  lemma SessionsAreOk(sessions: set<UserSession>, boards: set<ChessBoard>, s: UserSession)
    requires World(sessions, boards) && s in sessions
    ensures SessionOk(s, boards)
    ensures s.currChessBoard != null ==> BoardOk(s.currChessBoard, sessions)
  {
  }

  /** A session fresh from the pool sits nowhere. */
  lemma NewSessionFits(sessions: set<UserSession>, boards: set<ChessBoard>, s: UserSession)
    requires World(sessions, boards) && s.currChessBoard == null && s.state == None && s.nextState == None
    ensures World(sessions + {s}, boards)
  {
    forall b | b in boards
      ensures BoardOk(b, sessions + {s})
    {
      assert BoardOk(b, sessions);
    }
    forall u | u in sessions + {s}
      ensures SessionOk(u, boards)
    {
      assert u in sessions ==> SessionOk(u, boards);
    }
  }

  // ---------- Messages of the Play state ----------

  // Constants of MainThread.
  const GAME_HALL_MAX_NUM := 5

  /** The board that a request names exists, or there is no such hall. */
  predicate NamesBoard(hall: nat, board: nat) {
    1 <= hall <= GAME_HALL_MAX_NUM ==> 1 <= board <= CHESS_BOARD_MAX_NUM
  }

  /** The message makes no handler dereference a null pointer: that is all the handlers take for granted. */
  ghost predicate Safe(s: UserSession, msg: Msg)
    reads s, if s.currChessBoard == null then {} else {s.currChessBoard} + s.currChessBoard.Users()
  {
    if s.currChessBoard != null then
      match msg
      case MoveChess(mover, _, _) => s.currChessBoard.UserAt(mover) != null
      case UndoMsg(rep, accepted) => Enabled(s.currChessBoard.View(), Undoes(rep, accepted))
      case RequestPlay(hall, board, locate) =>
        locate.Some? && s.currChessBoard.UserAt(locate.value) != null ==> NamesBoard(hall, board)
      case _ => true
    else if s.state == Some(GamePlay) then msg.Info? || msg.HallInfoReq? || msg.OtherMsg?
    else msg.RequestPlay? && s.state == Some(GameReady) ==> NamesBoard(msg.hall, msg.board)
  }

  /** StateGamePlay::MsgHandle answers false to these. */
  predicate Unhandled(msg: Msg) {
    msg.SystemMsg? || msg.OtherMsg?
  }

  /** StateGameReady::MsgHandle answers true to these. */
  predicate ReadyHandles(msg: Msg) {
    msg.Info? || msg.Unparsed? || msg.HallInfoReq? || msg.RequestPlay?
  }

  /** Where a message comes from: a seat of a board, the hall, or a session that is in neither. */
  datatype Origin = AtBoard(board: ChessBoard, seat: Seat) | Waiting(score: uint32) | Elsewhere

  ghost function OriginOf(s: UserSession): Origin
    reads s
  {
    if s.currChessBoard != null && s.locate.Some? then AtBoard(s.currChessBoard, s.locate.value)
    else if s.state == Some(GameReady) then Waiting(s.score)
    else Elsewhere
  }

  /** What a handled message means for the sender's board. `began` is GameBegan of the board that a replay
      request names, None when it names none. */
  function EventOf(msg: Msg, began: Option<bool>): Option<Event> {
    match msg
    case MoveChess(mover, isWinner, target) => Some(Moves(mover, isWinner, target))
    case Reconciled(isRequest, applyOrReply, all) => Some(Reconciles(isRequest, applyOrReply, all))
    case GiveUp(quitter, exit) =>
      if quitter == None then None
      else Some(if exit then Leaves(quitter.value) else Resigns(quitter.value))
    case UndoMsg(rep, accepted) => Some(Undoes(rep, accepted))
    case GameReadyReq(player, times) => Some(IsReady(player, times))
    case RequestPlay(_, _, locate) =>
      if began.Some? && locate.Some? then Some(PlaysAgain(locate.value, began.value)) else None
    case _ => None
  }

  function EventsOf(e: Option<Event>): seq<Event> {
    if e.Some? then [e.value] else []
  }

  ghost function BeganOf(named: ChessBoard?): Option<bool>
    reads named, if named == null then {} else named.Users()
  {
    if named == null then None else Some(named.View().GameBegan())
  }

  function Outcome(r: Room, e: Option<Event>): Room {
    if e.Some? then Apply(r, e.value) else r
  }

  /** Whom the message removes from the board: the sender, as a rule. */
  ghost function Leavers(b: ChessBoard, msg: Msg): set<UserSession>
    reads b
  {
    if msg.GiveUp? && msg.quitter.Some? then b.Evicted(msg.quitter.value, msg.exit) else {}
  }

  /** TranslateMsg, for a message it handles: dispatch to the board's handlers. */
  method TranslateMsg(s: UserSession, b: ChessBoard, msg: Msg, named: ChessBoard?)
    requires b.Valid() && s.currChessBoard == b && Safe(s, msg) && !Unhandled(msg)
    modifies b`leftUser, b`rightUser, b`bottomUser, b`currUserNum, b`first, b`winner, b`loser, b`totalTime, b`stepTime
    modifies b.Users()`status, b.Users()`score, Leavers(b, msg)`nextState, Leavers(b, msg)`currChessBoard
    ensures b.Valid() && b.View() == Outcome(old(b.View()), EventOf(msg, old(BeganOf(named))))
    ensures b.View() == match msg
                        case MoveChess(mover, isWinner, target) => Apply(old(b.View()), Moves(mover, isWinner, target))
                        case Reconciled(isRequest, applyOrReply, all) =>
                          Apply(old(b.View()), Reconciles(isRequest, applyOrReply, all))
                        case GiveUp(Some(quitter), true) => Apply(old(b.View()), Leaves(quitter))
                        case GiveUp(Some(quitter), false) => Apply(old(b.View()), Resigns(quitter))
                        case UndoMsg(repOrRespon, accepted) => Apply(old(b.View()), Undoes(repOrRespon, accepted))
                        case GameReadyReq(player, times) => Apply(old(b.View()), IsReady(player, times))
                        case RequestPlay(_, _, Some(seat)) =>
                          if named == null then old(b.View())
                          else Apply(old(b.View()), PlaysAgain(seat, old(named.View().GameBegan())))
                        case _ => old(b.View())
    ensures forall t: Seat :: b.UserAt(t) == if old(b.UserAt(t)) in old(Leavers(b, msg)) then null else old(b.UserAt(t))
    ensures forall u :: u in old(Leavers(b, msg)) ==> u.currChessBoard == null && u.nextState == Some(GameReady)
  {
    hide Move, Token, Reconcile, Undo, GetReady, PlayAgain, Leave, Resign, FirstIsSeated;
    match msg
    case MoveChess(mover, isWinner, target) =>
      var token := b.MoveChessHandle(mover, isWinner, target);
    case Reconciled(isRequest, applyOrReply, all) => b.ReconciledHandle(isRequest, applyOrReply, all);
    case GiveUp(quitter, exit) =>
      if quitter.Some? {
        b.GiveUpHandle(quitter.value, exit);
      }
    case UndoMsg(rep, accepted) => b.UndoHandle(rep, accepted);
    case GameReadyReq(player, times) => b.GameReadyHandle(player, times);
    case RequestPlay(_, _, locate) =>
      if named != null && locate.Some? {
        b.GameAgainHandle(named, locate.value);
      }
    case _ =>
  }

  // ---------- Steps of one session, with its board in view ----------

  function Departure(seat: Seat, dropped: bool): Event {
    if dropped then IsDropped(seat) else Leaves(seat)
  }

  lemma BoardsAreOk(sessions: set<UserSession>, boards: set<ChessBoard>, b: ChessBoard)
    requires World(sessions, boards) && b in boards
    ensures BoardOk(b, sessions)
  {
  }

  lemma JoinEvents(r: Room, locate: Option<Seat>, score: uint32)
    ensures Enabled(r, Joins(locate, score)) && Apply(r, Joins(locate, score)) == Join(r, locate, score)
  {
  }

  lemma BoardIsLogged(boards: set<ChessBoard>, b: ChessBoard)
    requires AllLogged(boards) && b in boards
    ensures Replay(EMPTY, b.log) == Some(b.View())
  {
  }

  lemma DepartureEvents(r: Room, seat: Seat, dropped: bool)
    requires r.At(seat).Some?
    ensures var e := Departure(seat, dropped);
            Enabled(r, e) && Apply(r, e) == Leave(if dropped then r.SetStatus(seat, NotStart) else r, seat)
  {
  }

  ghost method Log(b: ChessBoard, e: Event, r: Room)
    requires Replay(EMPTY, b.log) == Some(r) && Enabled(r, e) && b.View() == Apply(r, e)
    modifies b`log
    ensures b.log == old(b.log) + [e] && b.Logged()
  {
    ReplayOneMore(EMPTY, b.log, r, e);
    b.log := b.log + [e];
  }

  /** Every seat of `b` stayed as it was, or was taken or left by `s`. */
  twostate predicate SeatsChange(b: ChessBoard, s: UserSession)
    reads b
  {
    && SeatChange(old(b.leftUser), b.leftUser, s)
    && SeatChange(old(b.rightUser), b.rightUser, s)
    && SeatChange(old(b.bottomUser), b.bottomUser, s)
  }

  /** A seated session gives up everything it holds; `dropped` resets its status first, as StateGamePlay does
      when it fails. */
  method GiveUpSession(s: UserSession, dropped: bool)
    requires Leavable(s) && s.currChessBoard != null && s.state.Some?
    modifies s, s.currChessBoard, s.currChessBoard.Users()`status, s.currChessBoard.Users()`score
    ensures Clean(s) && (old(s.clifd) != -1 ==> s.score == 0) && s.locate == old(s.locate)
    ensures var b := old(s.currChessBoard);
            && b.Valid() && b.log == old(b.log) && s !in b.Users() && SeatsChange(b, s)
            && b.View() == Apply(old(b.View()), Departure(s.locate.value, dropped))
  {
    hide Leave, Vacate, FirstIsSeated, Apply, Enabled;
    var b, seat := s.currChessBoard, s.locate.value;
    DepartureEvents(b.View(), seat, dropped);
    if dropped {
      b.SetUserStatus(seat, NotStart);
      s.nextState := Some(GameReady);
    }
    s.DestructResource();
    assert b.UserAt(Left) == b.leftUser && b.UserAt(Right) == b.rightUser && b.UserAt(Bottom) == b.bottomUser;
    assert SeatChange(old(b.UserAt(Left)), b.leftUser, s);
    assert SeatChange(old(b.UserAt(Right)), b.rightUser, s);
    assert SeatChange(old(b.UserAt(Bottom)), b.bottomUser, s);
  }

  /** The same, with the board's history and the other sessions and boards in view. */
  method Depart(s: UserSession, dropped: bool, ghost d: Change)
    requires World(d.sessions, d.boards) && AllLogged(d.boards)
    requires s in d.sessions && s.currChessBoard != null
    requires d == Change(s, s.currChessBoard, d.sessions, d.boards, d.sessions - {s})
    modifies s, s.currChessBoard, s.currChessBoard.Users()`status, s.currChessBoard.Users()`score
    ensures World(d.remaining, d.boards) && AllLogged(d.boards) && Clean(s) && (old(s.clifd) != -1 ==> s.score == 0)
    ensures old(s.locate).Some? && d.board.log == old(d.board.log) + [Departure(old(s.locate).value, dropped)]
    ensures forall c :: c in d.boards && c != d.board ==> c.View() == old(c.View())
  {
    hide World, AllLogged, Apply, Replay, FirstIsSeated;
    SessionsAreOk(d.sessions, d.boards, s);
    ghost var b, seat, r := s.currChessBoard, s.locate.value, s.currChessBoard.View();
    BoardIsLogged(d.boards, b);
    GiveUpSession(s, dropped);
    DepartureEvents(r, seat, dropped);
    Log(b, Departure(seat, dropped), r);
    WorldKept(d);
  }

  /** UserSession::MessageHandle after a handler has succeeded. */
  method SwitchState(s: UserSession)
    modifies s`state
    ensures s.state == if s.nextState.Some? then s.nextState else old(s.state)
  {
    if s.nextState.Some? && s.nextState != s.state {
      s.state := s.nextState;
    }
  }

  /** The session whose seat the message may change. */
  ghost function Concerned(s: UserSession, msg: Msg): UserSession
    requires s.currChessBoard != null
    reads s, s.currChessBoard
  {
    var b := s.currChessBoard;
    if Leavers(b, msg) != {} then b.UserAt(msg.quitter.value) else s
  }

  /** UserSession::MessageHandle in the Play state. */
  method HandleAndSwitch(s: UserSession, msg: Msg, named: ChessBoard?)
    requires Leavable(s) && s.currChessBoard != null && s.state == Some(GamePlay) == s.nextState
    requires Safe(s, msg) && !Unhandled(msg)
    modifies s`state, s.currChessBoard, s.currChessBoard.Users()`status, s.currChessBoard.Users()`score
    modifies Leavers(s.currChessBoard, msg)`nextState, Leavers(s.currChessBoard, msg)`currChessBoard
    ensures var b, u := old(s.currChessBoard), old(Concerned(s, msg));
            && b.Valid() && b.log == old(b.log) && SeatsChange(b, u)
            && (if u in old(Leavers(s.currChessBoard, msg))
                then u !in b.Users() && u.currChessBoard == null && u.nextState == Some(GameReady)
                else u == s && b.UserAt(s.locate.value) == s)
            && s.state == s.nextState
            // An exit in another user's name strands that user, and nothing else does.
            && (old(u.state) == Some(GamePlay) ==> (Stranded(u) <==> u != s))
            && b.View() == Outcome(old(b.View()), EventOf(msg, old(BeganOf(named))))
  {
    hide Outcome, EventOf, Safe, FirstIsSeated;
    ghost var b, u := s.currChessBoard, Concerned(s, msg);
    TranslateMsg(s, s.currChessBoard, msg, named);
    SwitchState(s);
    assert b.UserAt(Left) == b.leftUser && b.UserAt(Right) == b.rightUser && b.UserAt(Bottom) == b.bottomUser;
    assert SeatChange(old(b.UserAt(Left)), b.leftUser, u);
    assert SeatChange(old(b.UserAt(Right)), b.rightUser, u);
    assert SeatChange(old(b.UserAt(Bottom)), b.bottomUser, u);
  }

  /** The same, with the board's history and the other sessions and boards in view. `named` is the board that a
      replay request names. */
  method PlayMessage(s: UserSession, msg: Msg, named: ChessBoard?, ghost d: Change)
    requires World(d.sessions, d.boards) && AllLogged(d.boards)
    requires s in d.sessions && s.currChessBoard != null
    requires d == Change(Concerned(s, msg), s.currChessBoard, d.sessions, d.boards, d.sessions)
    requires Safe(s, msg) && !Unhandled(msg)
    modifies s`state, s.currChessBoard, s.currChessBoard.Users()`status, s.currChessBoard.Users()`score
    modifies Leavers(s.currChessBoard, msg)`nextState, Leavers(s.currChessBoard, msg)`currChessBoard
    ensures World(d.sessions, d.boards) && AllLogged(d.boards)
    ensures d.board.log == old(d.board.log) + EventsOf(EventOf(msg, old(BeganOf(named))))
    ensures forall c :: c in d.boards && c != d.board ==> c.View() == old(c.View())
  {
    hide World, AllLogged, Apply, Replay, EventOf, FirstIsSeated, Safe;
    SessionsAreOk(d.sessions, d.boards, s);
    ghost var b, r, u := s.currChessBoard, s.currChessBoard.View(), d.session;
    ghost var began := BeganOf(named);
    assert u in b.Users() && u in d.sessions;
    SessionsAreOk(d.sessions, d.boards, u);
    BoardIsLogged(d.boards, b);
    SafeEvents(s, msg, began);
    HandleAndSwitch(s, msg, named);
    ghost var e := EventOf(msg, began);
    if e.Some? {
      Log(b, e.value, r);
    }
    WorldKept(d);
  }

  /** A safe message does nothing for which the board's handlers are not prepared. */
  lemma SafeEvents(s: UserSession, msg: Msg, began: Option<bool>)
    requires s.currChessBoard != null && Safe(s, msg)
    ensures EventOf(msg, began).Some? ==> Enabled(s.currChessBoard.View(), EventOf(msg, began).value)
  {
  }

  /** GameRequestHandle for a board that was found, and the switch to the Play state. */
  method JoinMessage(s: UserSession, b: ChessBoard, locate: Option<Seat>, ghost d: Change)
    requires World(d.sessions, d.boards) && AllLogged(d.boards)
    requires s in d.sessions && b in d.boards && s.currChessBoard == null && s.state == Some(GameReady)
    requires d == Change(s, b, d.sessions, d.boards, d.sessions)
    modifies s`locate, s`status, s`currChessBoard, s`state, s`nextState, b
    ensures World(d.sessions, d.boards) && AllLogged(d.boards)
    ensures b.log == old(b.log) + [Joins(locate, old(s.score))]
    ensures s.locate == locate
    ensures if JoinAccepted(old(b.View()), locate)
            then s.currChessBoard == b && s.state == Some(GamePlay) && b.UserAt(locate.value) == s && s.status == Ready
            else s.currChessBoard == null && s.state == Some(GameReady)
    ensures forall c :: c in d.boards && c != b ==> c.View() == old(c.View())
  {
    hide World, AllLogged, Apply, Replay, FirstIsSeated;
    SessionsAreOk(d.sessions, d.boards, s);
    BoardsAreOk(d.sessions, d.boards, b);
    ghost var r := b.View();
    BoardIsLogged(d.boards, b);
    JoinEvents(r, locate, s.score);
    var ok := RequestSeat(b, s, locate);
    assert b.UserAt(Left) == b.leftUser && b.UserAt(Right) == b.rightUser && b.UserAt(Bottom) == b.bottomUser;
    assert SeatChange(old(b.UserAt(Left)), b.leftUser, s);
    assert SeatChange(old(b.UserAt(Right)), b.rightUser, s);
    assert SeatChange(old(b.UserAt(Bottom)), b.bottomUser, s);
    SwitchState(s);
    Log(b, Joins(locate, s.score), r);
    WorldKept(d);
  }

  // ---------- The server ----------

  ghost predicate HallOk(hall: GameHall)
    reads hall
  {
    hall.Valid() && hall.chessBoardMaxNum == CHESS_BOARD_MAX_NUM
  }

  /** Two halls are different objects with different boards. */
  ghost predicate Apart(g: GameHall, h: GameHall)
    reads g, h
  {
    g != h && Disjoint(g.chessBoardInfo, h.chessBoardInfo)
  }

  ghost predicate Disjoint(m: map<nat, ChessBoard>, n: map<nat, ChessBoard>) {
    forall j, k :: j in m && k in n ==> m[j] != n[k]
  }

  ghost predicate Known(m: map<nat, ChessBoard>, boards: set<ChessBoard>) {
    forall k :: k in m ==> m[k] in boards
  }

  /** What the lookup of a number in the boards `m` yields: it leaves `n`, and is null for numbers out of range. */
  ghost predicate Found(m: map<nat, ChessBoard>, n: map<nat, ChessBoard>, board: nat, b: ChessBoard?) {
    if 1 <= board <= CHESS_BOARD_MAX_NUM
    then b != null && n == m[board := b] && (board in m ==> b == m[board])
    else b == null && n == m
  }

  /** The boards of a hall have become `n`: those that were there before, and others that nobody knew. */
  ghost predicate GrownFrom(m: map<nat, ChessBoard>, n: map<nat, ChessBoard>, known: set<ChessBoard>) {
    forall k :: k in n ==> (k in m && n[k] == m[k]) || n[k] !in known
  }

  lemma GrowingKeepsDisjoint(m: map<nat, ChessBoard>, n: map<nat, ChessBoard>, o: map<nat, ChessBoard>,
                             known: set<ChessBoard>)
    requires Disjoint(m, o) && GrownFrom(m, n, known) && Known(o, known)
    ensures Disjoint(n, o) && Disjoint(o, n)
  {
  }

  /** GetChessBoardByID, for a hall of the server. */
  method LookUp(hall: GameHall, board: nat) returns (b: ChessBoard?)
    requires HallOk(hall)
    modifies hall`chessBoardInfo
    ensures HallOk(hall) && Found(old(hall.chessBoardInfo), hall.chessBoardInfo, board, b)
    ensures b != null && board !in old(hall.chessBoardInfo) ==> fresh(b) && Unused(b)
  {
    b := hall.GetChessBoardByID(board);
  }

  class Server {
    const halls: map<nat, GameHall>
    const pool: SessionPool
    var fdSessionMap: map<int, UserSession>
    ghost var boards: set<ChessBoard>

    constructor ()
      ensures Valid() && fdSessionMap == map[] && boards == {}
      ensures fresh(pool) && fresh(halls.Values)
    {
      var made: map<nat, GameHall> := map[];
      var i := 1;
      while i <= GAME_HALL_MAX_NUM
        invariant 1 <= i <= GAME_HALL_MAX_NUM + 1 && forall h :: h in made <==> 1 <= h < i
        invariant forall h :: h in made ==>
                                && fresh(made[h]) && made[h].Valid()
                                && made[h].chessBoardMaxNum == CHESS_BOARD_MAX_NUM && made[h].chessBoardInfo == map[]
        invariant forall g, h :: g in made && h in made && g != h ==> made[g] != made[h]
      {
        var hall := new GameHall(CHESS_BOARD_MAX_NUM);
        made := made[i := hall];
        i := i + 1;
      }
      halls := made;
      pool := new SessionPool();
      fdSessionMap, boards := map[], {};
    }

    ghost predicate HallsOk()
      reads `boards, halls.Values
    {
      && (forall h :: h in halls <==> 1 <= h <= GAME_HALL_MAX_NUM)
      && (forall h :: h in halls ==> HallOk(halls[h]) && Known(halls[h].chessBoardInfo, boards))
      && (forall g, h :: g in halls && h in halls && g != h ==> Apart(halls[g], halls[h]))
    }

    /** All halls but one are in order, and share no board with `m`; all their boards are in `known`. */
    ghost predicate OthersOk(hall: nat, m: map<nat, ChessBoard>, known: set<ChessBoard>)
      requires hall in halls
      reads set h: nat | h in halls && halls[h] != halls[hall] :: halls[h]
    {
      && (forall h :: h in halls && h != hall ==>
                        && halls[h] != halls[hall] && HallOk(halls[h])
                        && Disjoint(m, halls[h].chessBoardInfo) && Known(halls[h].chessBoardInfo, known))
      && (forall g, h :: g in halls && h in halls && halls[g] != halls[hall] && halls[h] != halls[hall] && g != h ==>
                           Apart(halls[g], halls[h]))
    }

    lemma HallsAreOk(hall: nat)
      requires HallsOk() && hall in halls
      ensures HallOk(halls[hall]) && OthersOk(hall, halls[hall].chessBoardInfo, boards)
      ensures Known(halls[hall].chessBoardInfo, boards) && forall h :: h in halls <==> 1 <= h <= GAME_HALL_MAX_NUM
    {
    }

    lemma HallNumbers()
      requires HallsOk()
      ensures forall h :: h in halls <==> 1 <= h <= 5
    {
    }

    /** One hall has gained boards that nobody knew. */
    lemma HallsGrow(hall: nat, m: map<nat, ChessBoard>, known: set<ChessBoard>)
      requires forall h :: h in halls <==> 1 <= h <= GAME_HALL_MAX_NUM
      requires hall in halls && HallOk(halls[hall]) && OthersOk(hall, m, known)
      requires GrownFrom(m, halls[hall].chessBoardInfo, known)
      requires known <= boards && Known(halls[hall].chessBoardInfo, boards)
      ensures HallsOk()
    {
      forall h | h in halls && h != hall
        ensures Apart(halls[hall], halls[h]) && Apart(halls[h], halls[hall]) && Known(halls[h].chessBoardInfo, boards)
      {
        GrowingKeepsDisjoint(m, halls[hall].chessBoardInfo, halls[h].chessBoardInfo, known);
      }
    }

    /** The sessions in use are those of the open descriptors. */
    ghost predicate Connected()
      reads `fdSessionMap, pool`inUse, fdSessionMap.Values`clifd
    {
      && pool.inUse == fdSessionMap.Values
      && forall fd :: fd in fdSessionMap ==> fd >= 0 && fdSessionMap[fd].clifd == fd
    }

    lemma SessionInUse(fd: int)
      requires Connected() && fd in fdSessionMap
      ensures fdSessionMap[fd] in pool.inUse
    {
    }

    ghost predicate Valid()
      reads this, pool, pool.sessionList, pool.inUse, halls.Values, boards
      reads fdSessionMap.Values
      reads set b, u | b in boards && u in b.Users() :: u
    {
      pool.Valid() && Connected() && HallsOk() && World(pool.inUse, boards) && AllLogged(boards)
    }

    /** NotifyReceivedProcess: a connection was accepted with descriptor `fd`. */
    method Accept(fd: int)
      requires Valid() && fd >= 0 && fd !in fdSessionMap
      modifies `fdSessionMap, pool, pool.sessionList
      ensures Valid()
      ensures forall b :: b in boards ==> b.View() == old(b.View()) && b.log == old(b.log)
      ensures fd in fdSessionMap && fdSessionMap == old(fdSessionMap)[fd := fdSessionMap[fd]]
      ensures fdSessionMap[fd] !in old(pool.inUse) && fdSessionMap[fd].currChessBoard == null
    {
      hide World, AllLogged, HallsOk, SessionPool.AllClean;
      var session := pool.GetOneSessionFromPool();
      assert session !in Elements(pool.sessionList) && session !in pool.sessionList;
      session.clifd := fd;
      ValuesWith(fdSessionMap, fd, session);
      fdSessionMap := fdSessionMap[fd := session];
      SceneKept(Scene(old(pool.inUse), boards));
      NewSessionFits(old(pool.inUse), boards, session);
      assert pool.Valid() && Connected() && HallsOk();
    }

    /** The end of ClosingClientCon and of RecycleSession: the session has given up what it held. */
    method Recycle(fd: int)
      requires pool.Valid() && fd in fdSessionMap && Clean(fdSessionMap[fd]) && fdSessionMap[fd].score == 0
      requires pool.inUse == fdSessionMap.Values
      requires forall k :: k in fdSessionMap && k != fd ==> k >= 0 && fdSessionMap[k].clifd == k
      modifies `fdSessionMap, pool
      ensures pool.Valid() && Connected() && fdSessionMap == old(fdSessionMap) - {fd}
      ensures pool.inUse == old(pool.inUse) - {old(fdSessionMap[fd])}
      ensures pool.sessionList != [] && pool.sessionList[0] == old(fdSessionMap[fd])
    {
      var s := fdSessionMap[fd];
      ValuesWithout(fdSessionMap, fd);
      fdSessionMap := fdSessionMap - {fd};
      pool.PushFront(s);
    }

    /** The session of `fd` holds no board: closing the connection concerns nobody else. */
    method CloseIdle(fd: int)
      requires Valid() && fd in fdSessionMap && fdSessionMap[fd].currChessBoard == null
      modifies `fdSessionMap, pool, fdSessionMap[fd]
      ensures Valid() && fdSessionMap == old(fdSessionMap) - {fd}
      ensures pool.sessionList != [] && pool.sessionList[0] == old(fdSessionMap[fd])
      ensures forall c :: c in boards ==> c.View() == old(c.View()) && c.log == old(c.log)
    {
      hide World, AllLogged, HallsOk;
      var s := fdSessionMap[fd];
      ghost var sessions := pool.inUse;
      assert SessionOk(s, boards) by {
        SessionsAreOk(sessions, boards, s);
      }
      s.DestructResource();
      Recycle(fd);
      WorldKeptAside(Aside(s, sessions, boards, sessions - {s}));
    }

    /** The session of `fd` leaves its board: a disconnect, or, if `dropped`, a message the Play state does not
        handle. */
    method CloseSeated(fd: int, dropped: bool)
      requires Valid() && fd in fdSessionMap && fdSessionMap[fd].currChessBoard != null
      modifies `fdSessionMap, pool, fdSessionMap[fd]
      modifies fdSessionMap[fd].currChessBoard, fdSessionMap[fd].currChessBoard.Users()`status
      modifies fdSessionMap[fd].currChessBoard.Users()`score
      ensures Valid() && fdSessionMap == old(fdSessionMap) - {fd}
      ensures pool.sessionList != [] && pool.sessionList[0] == old(fdSessionMap[fd])
      ensures var s := old(fdSessionMap[fd]);
              var b := old(s.currChessBoard);
              && old(s.locate).Some? && b.log == old(b.log) + [Departure(old(s.locate).value, dropped)]
              && forall c :: c in boards && c != b ==> c.View() == old(c.View()) && c.log == old(c.log)
    {
      hide World, AllLogged, HallsOk;
      var s := fdSessionMap[fd];
      ghost var sessions := pool.inUse;
      SessionsAreOk(sessions, boards, s);
      assert s.clifd == fd >= 0;
      Depart(s, dropped, Change(s, s.currChessBoard, sessions, boards, sessions - {s}));
      label Departed:
      assert s.score == 0 && pool.Valid();
      Recycle(fd);
      SceneKept@Departed(Scene(sessions - {s}, boards));
    }

    /** ClosingClientCon: a disconnect, a timeout, or a message that was not handled. */
    method Close(fd: int)
      requires Valid()
      modifies `fdSessionMap, pool, pool.inUse, boards
      ensures Valid() && fdSessionMap == old(fdSessionMap) - {fd} && boards == old(boards)
      ensures fd in old(fdSessionMap) ==> pool.sessionList != [] && pool.sessionList[0] == old(fdSessionMap[fd])
      ensures fd in old(fdSessionMap) && old(fdSessionMap[fd].currChessBoard) != null ==>
                old(fdSessionMap[fd].locate).Some?
      ensures forall c :: c in boards ==>
                c.log == old(c.log) + if fd in old(fdSessionMap) && old(fdSessionMap[fd].currChessBoard) == c
                                      then [Leaves(old(fdSessionMap[fd].locate).value)] else []
    {
      if fd in fdSessionMap {
        if fdSessionMap[fd].currChessBoard == null {
          CloseIdle(fd);
        } else {
          SessionsAreOk(pool.inUse, boards, fdSessionMap[fd]);
          CloseSeated(fd, false);
        }
      }
    }

    /** `b` is the board that the two numbers of a request name. */
    ghost predicate IsBoard(hall: nat, board: nat, b: ChessBoard)
      reads halls.Values
    {
      hall in halls && board in halls[hall].chessBoardInfo && halls[hall].chessBoardInfo[board] == b
    }

    /** GameBegan of the board that a replay request names; a board that does not exist yet is created idle. */
    ghost function BeganAt(msg: Msg): Option<bool>
      requires HallsOk()
      reads this, halls.Values, boards, set b, u | b in boards && u in b.Users() :: u
    {
      if !msg.RequestPlay? || msg.hall !in halls || !(1 <= msg.board <= CHESS_BOARD_MAX_NUM) then None
      else
        var info := halls[msg.hall].chessBoardInfo;
        Some(msg.board in info && info[msg.board].View().GameBegan())
    }

    ghost function OriginOfFd(fd: int): Origin
      reads `fdSessionMap, fdSessionMap.Values
    {
      if fd in fdSessionMap then OriginOf(fdSessionMap[fd]) else Elsewhere
    }

    /** What a message sent from `from` adds to the history of board `c`. */
    ghost function NewEvents(c: ChessBoard, msg: Msg, began: Option<bool>, from: Origin): seq<Event>
      reads halls.Values
    {
      match from
      case AtBoard(b, seat) =>
        if c != b then []
        else if Unhandled(msg) then [IsDropped(seat)]
        else EventsOf(EventOf(msg, began))
      case Waiting(score) =>
        if msg.RequestPlay? && IsBoard(msg.hall, msg.board, c) then [Joins(msg.locate, score)] else []
      case Elsewhere => []
    }

    /** The boards that a hall has gained since it held `m` take part in the invariants. */
    ghost method Adopt(hall: nat, m: map<nat, ChessBoard>)
      requires forall h :: h in halls <==> 1 <= h <= GAME_HALL_MAX_NUM
      requires hall in halls && HallOk(halls[hall]) && OthersOk(hall, m, boards) && Known(m, boards)
      requires GrownFrom(m, halls[hall].chessBoardInfo, boards)
      requires World(pool.inUse, boards) && AllLogged(boards)
      requires forall k :: k in halls[hall].chessBoardInfo && halls[hall].chessBoardInfo[k] !in boards ==>
                             Unused(halls[hall].chessBoardInfo[k])
      modifies `boards
      ensures HallsOk() && World(pool.inUse, boards) && AllLogged(boards)
      ensures boards == old(boards) + halls[hall].chessBoardInfo.Values
    {
      hide World, AllLogged, HallsOk, OthersOk, Unused;
      ghost var known := boards;
      EmptyBoardsFit(pool.inUse, boards, halls[hall].chessBoardInfo.Values);
      boards := boards + halls[hall].chessBoardInfo.Values;
      HallsGrow(hall, m, known);
    }

    /** Every board's history has grown by what a message sent from `from` adds to it; a board that the message
        has created had none. */
    twostate predicate Recorded(msg: Msg, began: Option<bool>, from: Origin)
      reads `boards, boards, halls.Values
    {
      forall c :: c in boards ==>
                    if c in old(boards) then c.log == old(c.log) + NewEvents(c, msg, began, from)
                    else fresh(c) && c.log == NewEvents(c, msg, began, from)
    }

    /** GetChessBoardByID of a hall. */
    method FindBoardIn(hall: nat, board: nat) returns (b: ChessBoard?)
      requires Valid() && hall in halls
      modifies `boards, halls[hall]
      ensures Valid() && boards == old(boards) + halls[hall].chessBoardInfo.Values
      ensures Found(old(halls[hall].chessBoardInfo), halls[hall].chessBoardInfo, board, b)
      ensures b != null && board !in old(halls[hall].chessBoardInfo) ==> fresh(b) && Unused(b)
    {
      hide World, AllLogged, HallsOk, SessionPool.Valid, Connected, OthersOk, Unused;
      HallsAreOk(hall);
      ghost var m := halls[hall].chessBoardInfo;
      b := LookUp(halls[hall], board);
      assert pool.Valid() && Connected();
      assert World(pool.inUse, boards) && AllLogged(boards) by {
        SceneKept(Scene(pool.inUse, boards));
      }
      Adopt(hall, m);
    }

    /** GetGameHall and GetChessBoardByID: a board that is found or made. */
    method FindBoard(hall: nat, board: nat) returns (b: ChessBoard?)
      requires Valid()
      modifies `boards, halls.Values
      ensures Valid() && old(boards) <= boards && (b != null ==> b in boards)
      ensures b == null <==> !(1 <= hall <= 5 && 1 <= board <= 60)
      ensures if b != null then IsBoard(hall, board, b) else hall !in halls || board !in halls[hall].chessBoardInfo
      ensures b != null && board in old(halls[hall].chessBoardInfo) ==> b == old(halls[hall].chessBoardInfo)[board]
      ensures b != null && board !in old(halls[hall].chessBoardInfo) ==> fresh(b) && Unused(b)
      ensures forall c :: c in boards && c !in old(boards) ==> c == b && fresh(c)
    {
      hide World, AllLogged, HallsOk, SessionPool.Valid, Connected, Unused;
      HallNumbers();
      b := null;
      if hall in halls {
        HallsAreOk(hall);
        b := FindBoardIn(hall, board);
        assert b != null ==> halls[hall].chessBoardInfo[board] == b;
      }
    }

    /** WrapHallInfo creates the boards of a hall that nobody has asked for yet. */
    method WrapHallInfo(hall: nat)
      requires Valid()
      modifies `boards, halls.Values
      ensures Valid() && old(boards) <= boards
      ensures forall c :: c in boards && c !in old(boards) ==> fresh(c) && c.View() == EMPTY && c.log == []
      ensures 1 <= hall <= 5 ==> hall in halls && forall k: nat :: 1 <= k <= 60 ==> k in halls[hall].chessBoardInfo
    {
      hide World, AllLogged, HallsOk, SessionPool.Valid, Connected, OthersOk;
      HallNumbers();
      if hall in halls {
        HallsAreOk(hall);
        ghost var m := halls[hall].chessBoardInfo;
        halls[hall].WrapHallInfo();
        SceneKept(Scene(pool.inUse, boards));
        Adopt(hall, m);
      }
    }

    /** A session that has not reached the game: the first message creates its state, and a successful login and
        the end of the advertisement download each advance it. */
    method LoginMessage(s: UserSession, login: LoginOutcome) returns (handled: bool)
      requires Valid() && s in pool.inUse && s.state != Some(GamePlay) && s.state != Some(GameReady)
      modifies s`state, s`nextState, s`score
      ensures Valid() && handled == login.handled
      ensures s.currChessBoard == null && s.score == if login.score.Some? then login.score.value else old(s.score)
      ensures var state := old(if s.state == None then Auth else s.state.value);
              s.state == Some(if !(login.handled && login.advance) then state
                              else if state == Auth then DownAd else GameReady)
      ensures forall c :: c in boards ==> c.View() == old(c.View()) && c.log == old(c.log)
    {
      hide World, AllLogged, HallsOk;
      SessionsAreOk(pool.inUse, boards, s);
      if s.state == None {
        s.state, s.nextState := Some(Auth), Some(Auth);
      }
      if login.score.Some? {
        s.score := login.score.value;
      }
      if login.handled && login.advance {
        s.nextState := if s.state == Some(Auth) then Some(DownAd) else Some(GameReady);
      }
      if login.handled {
        SwitchState(s);
      }
      handled := login.handled;
      WorldKeptAside(Aside(s, pool.inUse, boards, pool.inUse));
    }

    /** The board of two numbers as a value, empty if it has not been made yet. */
    ghost function ViewAt(hall: nat, board: nat): Room
      requires HallsOk()
      reads this, halls.Values, boards, set b, u | b in boards && u in b.Users() :: u
    {
      if hall in halls && board in halls[hall].chessBoardInfo then halls[hall].chessBoardInfo[board].View() else EMPTY
    }

    /** How a request for a seat of an existing hall ends: the session notes the location, and it plays at the named
        seat exactly if that seat was free and no game had begun at the board. */
    twostate predicate Answered(s: UserSession, hall: nat, board: nat, locate: Option<Seat>)
      requires old(HallsOk())
      reads this, halls.Values, s, boards
    {
      && hall in halls && board in halls[hall].chessBoardInfo
      && s.locate == locate
      && var r := old(ViewAt(hall, board));
         if locate.Some? && r.At(locate.value) == None && forall t: Seat :: !r.Has(t, Playing) && !r.Has(t, Ended)
         then && s.state == Some(GamePlay) && s.status == Ready
              && s.currChessBoard == halls[hall].chessBoardInfo[board]
              && s.currChessBoard in boards && s.currChessBoard.UserAt(locate.value) == s
         else s.state == Some(GameReady) && s.currChessBoard == null
    }

    /** StateGameReady::GameRequestHandle */
    method RequestMessage(s: UserSession, hall: nat, board: nat, locate: Option<Seat>)
      requires Valid() && s in pool.inUse && s.state == Some(GameReady) && NamesBoard(hall, board)
      modifies `boards, halls.Values, boards, s
      ensures Valid() && old(boards) <= boards
      ensures forall c :: c in old(boards) ==>
                c.log == old(c.log) + if IsBoard(hall, board, c) then [Joins(locate, old(s.score))] else []
      ensures forall c :: c in boards && c !in old(boards) ==>
                fresh(c) && c.log == if IsBoard(hall, board, c) then [Joins(locate, old(s.score))] else []
      ensures if 1 <= hall <= 5 then Answered(s, hall, board, locate) else unchanged(s)
    {
      hide World, AllLogged, HallsOk, Connected, JoinAccepted, ReadyHandles;
      SessionsAreOk(pool.inUse, boards, s);
      HallNumbers();
      ghost var r := ViewAt(hall, board);
      var b := FindBoard(hall, board);
      if b != null {
        assert b.View() == r;
        JoinMessage(s, b, locate, Change(s, b, pool.inUse, boards, pool.inUse));
        SeatGrantedIff(r, locate);
        assert pool.Valid() && Connected() && HallsOk();
      }
    }

    /** StateGameReady::MsgHandle */
    method ReadyMessage(s: UserSession, msg: Msg) returns (handled: bool)
      requires Valid() && s in pool.inUse && s.state == Some(GameReady) && Safe(s, msg)
      modifies `boards, halls.Values, boards, s
      ensures Valid() && old(boards) <= boards
      ensures handled == ReadyHandles(msg)
      ensures !handled ==> boards == old(boards)
      ensures !handled ==> s.currChessBoard == null
      ensures Recorded(msg, old(BeganAt(msg)), old(OriginOf(s)))
      ensures if msg.RequestPlay? && 1 <= msg.hall <= 5 then Answered(s, msg.hall, msg.board, msg.locate)
              else unchanged(s)
    {
      hide World, AllLogged, HallsOk, Connected;
      SessionsAreOk(pool.inUse, boards, s);
      assert s.currChessBoard == null;
      handled := true;
      match msg
      case Info =>
      case Unparsed =>
      case HallInfoReq(hall) => WrapHallInfo(hall);
      case RequestPlay(hall, board, locate) =>
        RequestMessage(s, hall, board, locate);
      case _ => handled := false;
    }

    /** The boards that a message of the Play state looks up, and the one a replay request names. */
    method LookUpBoards(msg: Msg) returns (named: ChessBoard?)
      requires Valid()
      modifies `boards, halls.Values
      ensures Valid() && old(boards) <= boards && (named != null ==> named in boards)
      ensures forall c :: c in boards && c !in old(boards) ==> fresh(c) && c.log == []
      ensures BeganOf(named) == old(BeganAt(msg))
      ensures msg.RequestPlay? && 1 <= msg.hall <= 5 && 1 <= msg.board <= 60 ==>
                named != null && IsBoard(msg.hall, msg.board, named)
    {
      hide World, AllLogged, HallsOk, SessionPool.Valid;
      HallNumbers();
      named := null;
      if msg.HallInfoReq? {
        WrapHallInfo(msg.hallId);
      } else if msg.RequestPlay? {
        named := FindBoard(msg.hall, msg.board);
      }
    }

    /** A replay request stands for the seat it names and for whether the game of the board it names has begun. */
    lemma ReplayRequest(msg: Msg)
      requires HallsOk() && msg.RequestPlay? && msg.locate.Some? && 1 <= msg.hall <= 5 && 1 <= msg.board <= 60
      ensures EventsOf(EventOf(msg, BeganAt(msg)))
           == [PlaysAgain(msg.locate.value, ViewAt(msg.hall, msg.board).GameBegan())]
    {
    }

    /** StateGamePlay::MsgHandle, for the messages it handles. */
    method PlayingMessage(s: UserSession, msg: Msg)
      requires Valid() && s in pool.inUse && s.currChessBoard != null && Safe(s, msg) && !Unhandled(msg)
      modifies `boards, halls.Values, s`state, s.currChessBoard
      modifies s.currChessBoard.Users()`status, s.currChessBoard.Users()`score
      modifies Leavers(s.currChessBoard, msg)`nextState, Leavers(s.currChessBoard, msg)`currChessBoard
      ensures Valid() && old(boards) <= boards
      ensures forall c :: c in old(boards) && c != old(s.currChessBoard) ==> c.log == old(c.log)
      ensures old(s.currChessBoard).log == old(s.currChessBoard.log) + EventsOf(EventOf(msg, old(BeganAt(msg))))
      ensures forall c :: c in boards && c !in old(boards) ==> fresh(c) && c.log == []
    {
      hide World, AllLogged, HallsOk, Connected, SessionPool.AllClean, EventOf, EventsOf, Safe, FirstIsSeated,
        SessionOk;
      SessionsAreOk(pool.inUse, boards, s);
      var named := LookUpBoards(msg);
      PlayMessage(s, msg, named, Change(Concerned(s, msg), s.currChessBoard, pool.inUse, boards, pool.inUse));
      assert pool.Valid() && Connected() && HallsOk();
    }

    // What holds of every state the server reaches.

    /** The sessions that sit at a board of the hall. */
    ghost function PeopleIn(hall: nat): set<UserSession>
      requires hall in halls
      reads this, pool, pool.inUse, halls[hall]
    {
      set s | s in pool.inUse && s.currChessBoard != null && s.currChessBoard in halls[hall].chessBoardInfo.Values
    }

    /** The halls share no board. */
    lemma HallsAreApart(g: nat, h: nat)
      requires Valid() && g in halls && h in halls && g != h
      ensures halls[g].chessBoardInfo.Values !! halls[h].chessBoardInfo.Values && PeopleIn(g) !! PeopleIn(h)
    {
      assert Apart(halls[g], halls[h]);
    }

    /** A session occupies at most one seat of all the halls: hall, board number and location are the same. */
    lemma OneSeatInAllHalls(g: nat, j: nat, l: Seat, h: nat, k: nat, m: Seat)
      requires Valid() && g in halls && j in halls[g].chessBoardInfo && h in halls && k in halls[h].chessBoardInfo
      requires var u := halls[g].chessBoardInfo[j].UserAt(l);
               u != null && u == halls[h].chessBoardInfo[k].UserAt(m)
      ensures g == h && j == k && l == m
    {
      var b, c := halls[g].chessBoardInfo[j], halls[h].chessBoardInfo[k];
      assert b in halls[g].chessBoardInfo.Values && c in halls[h].chessBoardInfo.Values;
      SeatedOnce(pool.inUse, boards, b, l, c, m);
      if g != h {
        HallsAreApart(g, h);
      }
    }

    lemma HallIsConsistent(hall: nat)
      requires Valid() && hall in halls
      ensures HallOk(halls[hall]) && halls[hall].BoardsValid()
      ensures SeatedAt(halls[hall].chessBoardInfo.Values) == PeopleIn(hall)
    {
      var bs := halls[hall].chessBoardInfo.Values;
      forall b | b in bs
        ensures BoardOk(b, pool.inUse)
      {
        assert b in boards;
      }
      forall s | s in PeopleIn(hall)
        ensures s in SeatedAt(bs)
      {
        SessionsAreOk(pool.inUse, boards, s);
        assert s in s.currChessBoard.Users();
      }
    }

    /** GetCurrentPeopleNum of a hall counts the sessions seated in it, each once, and no more than there are seats. */
    method GetCurrentPeopleNum(hall: nat) returns (num: nat)
      requires Valid() && hall in halls
      ensures num == |PeopleIn(hall)| <= 180
    {
      hide World, AllLogged, HallsOk, Connected, SessionPool.Valid, PeopleIn, SeatedAt;
      HallIsConsistent(hall);
      num := halls[hall].GetCurrentPeopleNum();
    }

    /** On every board whose history kept to the rules of the game, 0, 2 or 3 users are playing. */
    lemma NobodyPlaysAlone(b: ChessBoard)
      requires Valid() && b in boards && AlwaysDisciplined(b.log)
      ensures b.GetActiveUsersNum() in {0, 2, 3}
    {
      BoardIsLogged(boards, b);
      PlayingIsNeverOne(b.log);
    }

    /** The scores at every board are what its history carried to it and minted there. */
    lemma BoardScoresAddUp(b: ChessBoard)
      requires Valid() && b in boards
      ensures Replay(EMPTY, b.log).Some? && Congruent(Total(b.View()), Ledger(EMPTY, b.log))
    {
      hide World, HallsOk, Total, Ledger, Apply, Enabled, Congruent;
      BoardIsLogged(boards, b);
      TableAddsUp(EMPTY, b.log);
    }

    /** A message of a seated session: one that the Play state does not handle costs the session its seat and its
        connection. */
    method MessageInGame(fd: int, msg: Msg) returns (handled: bool)
      requires Valid() && fd in fdSessionMap && fdSessionMap[fd].currChessBoard != null
      requires Safe(fdSessionMap[fd], msg)
      modifies `fdSessionMap, `boards, halls.Values, pool, fdSessionMap[fd], fdSessionMap[fd].currChessBoard
      modifies fdSessionMap[fd].currChessBoard.Users()`status, fdSessionMap[fd].currChessBoard.Users()`score
      modifies Leavers(fdSessionMap[fd].currChessBoard, msg)`nextState
      modifies Leavers(fdSessionMap[fd].currChessBoard, msg)`currChessBoard
      ensures Valid() && old(boards) <= boards && handled == !Unhandled(msg)
      ensures fdSessionMap == if handled then old(fdSessionMap) else old(fdSessionMap) - {fd}
      ensures Recorded(msg, old(BeganAt(msg)), old(OriginOf(fdSessionMap[fd])))
      ensures msg.SystemMsg? || msg.OtherMsg? ==>
                old(fdSessionMap[fd].locate).Some? && old(fdSessionMap[fd].currChessBoard).log
                == old(fdSessionMap[fd].currChessBoard.log) + [IsDropped(old(fdSessionMap[fd].locate).value)]
    {
      hide World, AllLogged, HallsOk, EventOf, EventsOf, Safe;
      SessionsAreOk(pool.inUse, boards, fdSessionMap[fd]);
      handled := !Unhandled(msg);
      if handled {
        PlayingMessage(fdSessionMap[fd], msg);
      } else {
        CloseSeated(fd, true);
      }
    }

    /** A message of a session in the Play state that has lost its board: it goes to the Ready state, or loses its
        connection too. */
    method StrandedMessage(fd: int, msg: Msg) returns (handled: bool)
      requires Valid() && fd in fdSessionMap && Stranded(fdSessionMap[fd]) && Safe(fdSessionMap[fd], msg)
      modifies `fdSessionMap, `boards, halls.Values, pool, fdSessionMap[fd]
      ensures Valid() && old(boards) <= boards && handled == !Unhandled(msg)
      ensures fdSessionMap == if handled then old(fdSessionMap) else old(fdSessionMap) - {fd}
      ensures handled ==> old(fdSessionMap[fd]).state == Some(GameReady)
      ensures Recorded(msg, old(BeganAt(msg)), old(OriginOf(fdSessionMap[fd])))
    {
      hide World, AllLogged, HallsOk;
      var s := fdSessionMap[fd];
      SessionsAreOk(pool.inUse, boards, s);
      handled := !Unhandled(msg);
      if handled {
        if msg.HallInfoReq? {
          WrapHallInfo(msg.hallId);
        }
        label Asked:
        SwitchState(s);
        WorldKeptAside@Asked(Aside(s, pool.inUse, boards, pool.inUse));
        assert pool.Valid() && Connected() && HallsOk();
      } else {
        CloseIdle(fd);
      }
    }

    /** A message in the Ready state: one that is not handled costs the session its connection. */
    method MessageInHall(fd: int, msg: Msg) returns (handled: bool)
      requires Valid() && fd in fdSessionMap && fdSessionMap[fd].state == Some(GameReady)
      requires Safe(fdSessionMap[fd], msg)
      modifies `fdSessionMap, `boards, pool, boards, halls.Values, fdSessionMap[fd]
      ensures Valid() && old(boards) <= boards && handled == ReadyHandles(msg)
      ensures fdSessionMap == if handled then old(fdSessionMap) else old(fdSessionMap) - {fd}
      ensures Recorded(msg, old(BeganAt(msg)), old(OriginOf(fdSessionMap[fd])))
      ensures msg.RequestPlay? && 1 <= msg.hall <= 5 ==>
                Answered(old(fdSessionMap[fd]), msg.hall, msg.board, msg.locate)
    {
      hide World, AllLogged, HallsOk, Connected, SessionPool.Valid, BoardOk, Safe, Answered, EventOf, EventsOf;
      SessionInUse(fd);
      handled := ReadyHandles(msg);
      if handled {
        var _ := ReadyMessage(fdSessionMap[fd], msg);
      } else {
        SessionsAreOk(pool.inUse, boards, fdSessionMap[fd]);
        CloseIdle(fd);
      }
    }

    /** A message before the Ready state: one that is not handled costs the session its connection. */
    method MessageBeforeHall(fd: int, msg: Msg, login: LoginOutcome) returns (handled: bool)
      requires Valid() && fd in fdSessionMap && fdSessionMap[fd].state !in {Some(GameReady), Some(GamePlay)}
      modifies `fdSessionMap, pool, fdSessionMap[fd]
      ensures Valid() && handled == login.handled
      ensures fdSessionMap == if handled then old(fdSessionMap) else old(fdSessionMap) - {fd}
      ensures Recorded(msg, old(BeganAt(msg)), old(OriginOf(fdSessionMap[fd])))
    {
      hide World, AllLogged, HallsOk, Connected, SessionPool.Valid, BoardOk;
      SessionInUse(fd);
      SessionsAreOk(pool.inUse, boards, fdSessionMap[fd]);
      handled := LoginMessage(fdSessionMap[fd], login);
      if !handled {
        CloseIdle(fd);
      }
    }

    /** One message of one client, from OnReadCb to the answer: UserSession::MessageHandle in the state of the
        session, and the end of the connection if it fails. */
    method OnMessage(fd: int, msg: Msg, login: LoginOutcome) returns (handled: bool)
      requires Valid() && (fd in fdSessionMap ==> Safe(fdSessionMap[fd], msg))
      modifies `fdSessionMap, `boards, pool, pool.inUse, boards, halls.Values
      ensures Valid() && old(boards) <= boards
      ensures handled == old(fd in fdSessionMap
                             && if fdSessionMap[fd].state == Some(GamePlay) then !msg.SystemMsg? && !msg.OtherMsg?
                                else if fdSessionMap[fd].state == Some(GameReady) then
                                  msg.Info? || msg.Unparsed? || msg.HallInfoReq? || msg.RequestPlay?
                                else login.handled)
      ensures fdSessionMap == if handled then old(fdSessionMap) else old(fdSessionMap) - {fd}
      ensures Recorded(msg, old(BeganAt(msg)), old(OriginOfFd(fd)))
      ensures (&& fd in old(fdSessionMap) && old(fdSessionMap[fd].state) == Some(GameReady)
               && msg.RequestPlay? && 1 <= msg.hall <= 5) ==>
                Answered(old(fdSessionMap[fd]), msg.hall, msg.board, msg.locate)
    {
      hide World, AllLogged, HallsOk, Connected, SessionPool.Valid, EventOf, EventsOf, BoardOk, Safe, Answered;
      if fd !in fdSessionMap {
        return false;
      }
      SessionInUse(fd);
      SessionsAreOk(pool.inUse, boards, fdSessionMap[fd]);
      if fdSessionMap[fd].state == Some(GameReady) {
        handled := MessageInHall(fd, msg);
      } else if fdSessionMap[fd].state != Some(GamePlay) {
        handled := MessageBeforeHall(fd, msg, login);
      } else if fdSessionMap[fd].currChessBoard != null {
        handled := MessageInGame(fd, msg);
      } else {
        handled := StrandedMessage(fd, msg);
      }
    }
  }
}
