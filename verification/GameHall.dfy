/** A hall and its boards, which are created when they are first asked for (chessboard.cpp, GameHall). */
module GameHalls {
  import opened Rooms
  import opened ChessBoards

  const CHESS_BOARD_MAX_NUM := 60

  /** Everybody seated at one of the boards. */
  ghost function SeatedAt(boards: set<ChessBoard>): set<UserSession>
    reads boards
  {
    set b, u | b in boards && u in b.Users() :: u
  }

  /** Users at a board point back to it. */
  ghost predicate KnowTheirBoard(boards: set<ChessBoard>)
    reads boards, set b, u | b in boards && u in b.Users() :: u
  {
    forall b, u :: b in boards && u in b.Users() ==> u.currChessBoard == b
  }

  class GameHall {
    const chessBoardMaxNum: nat
    var chessBoardInfo: map<nat, ChessBoard>

    /** Board keys lie within 1 and the maximum, and every key has its own board. */
    ghost predicate Valid()
      reads this
    {
      && (forall k :: k in chessBoardInfo ==> 1 <= k <= chessBoardMaxNum)
      && (forall j, k :: j in chessBoardInfo && k in chessBoardInfo && j != k ==>
                           chessBoardInfo[j] != chessBoardInfo[k])
    }

    constructor (num: nat := CHESS_BOARD_MAX_NUM)
      ensures Valid() && chessBoardInfo == map[] && chessBoardMaxNum == num
    {
      chessBoardMaxNum, chessBoardInfo := num, map[];
    }

    function GetExpectedTotalPeopleNum(): nat {
      chessBoardMaxNum * 3
    }

    /** CreateChessBoard. Its size guard never refuses a key that is in range and absent. */
    method CreateChessBoard(id: nat) returns (ok: bool)
      requires Valid() && 1 <= id <= chessBoardMaxNum && id !in chessBoardInfo
      modifies `chessBoardInfo
      ensures ok && Valid() && id in chessBoardInfo
      ensures fresh(chessBoardInfo[id]) && chessBoardInfo[id].Valid() && chessBoardInfo[id].Users() == {}
      ensures chessBoardInfo[id].View() == EMPTY && chessBoardInfo[id].log == []
      ensures chessBoardInfo == old(chessBoardInfo)[id := chessBoardInfo[id]]
    {
      KeysBound(chessBoardInfo.Keys, chessBoardMaxNum);
      if |chessBoardInfo| > chessBoardMaxNum {
        return false;
      }
      var board := new ChessBoard();
      chessBoardInfo := chessBoardInfo[id := board];
      return true;
    }

    /** GetChessBoardByID */
    method GetChessBoardByID(id: nat) returns (board: ChessBoard?)
      requires Valid()
      modifies `chessBoardInfo
      ensures Valid()
      ensures !(1 <= id <= chessBoardMaxNum) ==> board == null && chessBoardInfo == old(chessBoardInfo)
      ensures 1 <= id <= chessBoardMaxNum ==>
                && board != null && id in chessBoardInfo && chessBoardInfo[id] == board
                && chessBoardInfo == old(chessBoardInfo)[id := board]
                && (id in old(chessBoardInfo) ==> board == old(chessBoardInfo)[id])
                && (id !in old(chessBoardInfo) ==>
                      fresh(board) && board.Valid() && board.Users() == {} && board.View() == EMPTY && board.log == [])
    {
      if id <= 0 || id > chessBoardMaxNum {
        return null;
      }
      if id !in chessBoardInfo {
        var _ := CreateChessBoard(id);
      }
      board := chessBoardInfo[id];
    }

    /** Every board is consistent with itself and with the users seated at it. */
    ghost predicate BoardsValid()
      reads this, chessBoardInfo.Values, set b, u | b in chessBoardInfo.Values && u in b.Users() :: u
    {
      (forall b :: b in chessBoardInfo.Values ==> b.Valid()) && KnowTheirBoard(chessBoardInfo.Values)
    }

    /** The boards `seen` have been counted, those under `keys` have not. */
    ghost predicate Counting(num: nat, keys: set<nat>, seen: set<ChessBoard>)
      reads this, seen
    {
      && keys <= chessBoardInfo.Keys && seen <= chessBoardInfo.Values
      && (forall k :: k in chessBoardInfo ==> (k in keys <==> chessBoardInfo[k] !in seen))
      && num == |SeatedAt(seen)| && num + 3 * |keys| <= 3 * |chessBoardInfo|
    }

    lemma NothingCounted()
      ensures Counting(0, chessBoardInfo.Keys, {})
    {
      NobodySeated();
      assert |chessBoardInfo| == |chessBoardInfo.Keys|;
    }

    lemma CountOneMore(num: nat, keys: set<nat>, seen: set<ChessBoard>, k: nat)
      requires Valid() && BoardsValid() && Counting(num, keys, seen) && k in keys
      ensures Counting(num + chessBoardInfo[k].currUserNum, keys - {k}, seen + {chessBoardInfo[k]})
    {
      var board := chessBoardInfo[k];
      assert board in chessBoardInfo.Values;
      board.CountUsers();
      SeatedAtOneMore(seen, board, chessBoardInfo.Values);
      assert |keys - {k}| == |keys| - 1;
    }

    lemma AllCounted(num: nat, seen: set<ChessBoard>)
      requires Valid() && Counting(num, {}, seen)
      ensures num == |SeatedAt(chessBoardInfo.Values)| && num <= GetExpectedTotalPeopleNum()
    {
      assert seen == chessBoardInfo.Values by {
        AllSeen(chessBoardInfo, seen);
      }
      assert |chessBoardInfo| == |chessBoardInfo.Keys|;
      KeysBound(chessBoardInfo.Keys, chessBoardMaxNum);
    }

    /** GetCurrentPeopleNum: when every board counts its own users, the sum is the number of people seated in the
        hall, and it is at most three for every board there can be. */
    method GetCurrentPeopleNum() returns (num: nat)
      requires Valid() && BoardsValid()
      ensures num == |SeatedAt(chessBoardInfo.Values)|
      ensures num <= GetExpectedTotalPeopleNum()
    {
      hide Counting, SeatedAt, BoardsValid;
      num := 0;
      var keys := chessBoardInfo.Keys;
      ghost var seen: set<ChessBoard> := {};
      NothingCounted();
      while keys != {}
        invariant BoardsValid() && keys <= chessBoardInfo.Keys && Counting(num, keys, seen)
        decreases |keys|
      {
        var k :| k in keys;
        CountOneMore(num, keys, seen, k);
        num := num + chessBoardInfo[k].GetUserNum();
        keys := keys - {k};
        seen := seen + {chessBoardInfo[k]};
      }
      AllCounted(num, seen);
    }

    /** WrapHallInfo asks for every board, and so creates the missing ones. */
    method WrapHallInfo()
      requires Valid()
      modifies `chessBoardInfo
      ensures Valid()
      ensures forall k :: k in old(chessBoardInfo) ==>
                            k in chessBoardInfo && chessBoardInfo[k] == old(chessBoardInfo)[k]
      ensures forall k :: k in chessBoardInfo && k !in old(chessBoardInfo) ==>
                var b := chessBoardInfo[k];
                fresh(b) && b.Valid() && b.Users() == {} && b.View() == EMPTY && b.log == []
      ensures forall k :: 1 <= k <= chessBoardMaxNum ==> k in chessBoardInfo
    {
      var j := 1;
      while j <= chessBoardMaxNum
        invariant 1 <= j <= chessBoardMaxNum + 1 && Valid()
        invariant forall k :: k in old(chessBoardInfo) ==>
                                k in chessBoardInfo && chessBoardInfo[k] == old(chessBoardInfo)[k]
        invariant forall k :: k in chessBoardInfo && k !in old(chessBoardInfo) ==>
                    var b := chessBoardInfo[k];
                    fresh(b) && b.Valid() && b.Users() == {} && b.View() == EMPTY && b.log == []
        invariant forall k :: 1 <= k < j ==> k in chessBoardInfo
      {
        label Before:
        var board := GetChessBoardByID(j);
        assert forall k :: k in old@Before(chessBoardInfo) ==> chessBoardInfo[k] == old@Before(chessBoardInfo)[k];
        j := j + 1;
      }
    }
  }

  lemma {:induction false} KeysBound(keys: set<nat>, n: nat)
    requires forall k :: k in keys ==> 1 <= k <= n
    ensures |keys| <= n
  {
    if n == 0 {
      assert keys == {};
    } else {
      KeysBound(keys - {n}, n - 1);
      if n in keys {
        assert keys == keys - {n} + {n};
      } else {
        assert keys == keys - {n};
      }
    }
  }

  lemma AllSeen(m: map<nat, ChessBoard>, seen: set<ChessBoard>)
    requires seen <= m.Values && forall k :: k in m ==> m[k] in seen
    ensures seen == m.Values
  {
  }

  lemma NobodySeated()
    ensures SeatedAt({}) == {}
  {
  }

  lemma OneBoardOnly(boards: set<ChessBoard>, b: ChessBoard, c: ChessBoard, u: UserSession)
    requires b in boards && c in boards && b != c && u in b.Users() && KnowTheirBoard(boards)
    ensures u !in c.Users()
  {
    assert u.currChessBoard == b;
    assert forall v :: v in c.Users() ==> v.currChessBoard == c;
  }

  /** A further board adds its own users, who sit nowhere else. */
  lemma SeatedAtOneMore(seen: set<ChessBoard>, board: ChessBoard, boards: set<ChessBoard>)
    requires board !in seen && seen <= boards && board in boards && KnowTheirBoard(boards)
    ensures |SeatedAt(seen + {board})| == |SeatedAt(seen)| + |board.Users()|
  {
    var all := seen + {board};
    forall u | u in SeatedAt(all)
      ensures u in SeatedAt(seen) + board.Users()
    {
      var b :| b in all && u in b.Users();
      assert b == board || b in seen;
    }
    forall u | u in SeatedAt(seen) + board.Users()
      ensures u in SeatedAt(all)
    {
      if u in board.Users() {
        assert board in all;
      } else {
        var b :| b in seen && u in b.Users();
        assert b in all;
      }
    }
    forall u | u in SeatedAt(seen)
      ensures u !in board.Users()
    {
      var b :| b in seen && u in b.Users();
      OneBoardOnly(boards, b, board, u);
    }
    assert SeatedAt(all) == SeatedAt(seen) + board.Users();
  }
}
