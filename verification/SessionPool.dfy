/** The pool of sessions kept by the main thread (mainthread.cpp, CreatSessionsPool to GetOneSessionFromPool). */
module SessionPools {
  import opened ChessBoards

  const CONNECTION_MAX_STEP := 10

  ghost function Elements<T>(s: seq<T>): set<T> {
    set x | x in s
  }

  ghost predicate Distinct<T>(s: seq<T>) {
    forall i, j :: 0 <= i < j < |s| ==> s[i] != s[j]
  }

  class SessionPool {
    var sessionList: seq<UserSession>
    ghost var made: set<UserSession>       // every session ever created
    ghost var inUse: set<UserSession>
    ghost var destroyed: set<UserSession>

    /** Every session is in exactly one of the pool, use and the grave; pooled sessions hold nothing. */
    ghost predicate Partitioned()
      reads this
    {
      && Distinct(sessionList)
      && made == Elements(sessionList) + inUse + destroyed
      && Elements(sessionList) !! inUse && Elements(sessionList) !! destroyed && inUse !! destroyed
    }

    ghost predicate AllClean()
      reads this, sessionList
    {
      forall s :: s in sessionList ==> Clean(s) && s.score == 0
    }

    ghost predicate Valid()
      reads this, sessionList
    {
      Partitioned() && AllClean() && |sessionList| < 2 * CONNECTION_MAX_STEP
    }

    constructor ()
      ensures Valid() && sessionList == [] && inUse == {} && destroyed == {}
    {
      sessionList, made, inUse, destroyed := [], {}, {}, {};
    }

    /** CreatSessionsPool, as it is called when the pool has run out. */
    method CreatSessionsPool(num: nat := CONNECTION_MAX_STEP)
      requires Partitioned() && AllClean() && |sessionList| + num < 2 * CONNECTION_MAX_STEP
      modifies `sessionList, `made
      ensures Valid() && |sessionList| == old(|sessionList|) + num
      ensures forall s :: s in sessionList ==> s in old(sessionList) || fresh(s)
    {
      var n := num;
      while n > 0
        invariant 0 <= n <= num && Partitioned() && AllClean() && |sessionList| == old(|sessionList|) + num - n
        invariant forall s :: s in sessionList ==> s in old(sessionList) || fresh(s)
        invariant forall s :: s in made ==> s in old(made) || fresh(s)
      {
        ghost var before, known := sessionList, made;
        var session := new UserSession();
        assert session !in known;
        sessionList := sessionList + [session];
        made := made + {session};
        assert Elements(sessionList) == Elements(before) + {session};
        n := n - 1;
      }
    }

    /** GetOneSessionFromPool */
    method GetOneSessionFromPool() returns (session: UserSession)
      requires Valid()
      modifies `sessionList, `made, `inUse
      ensures Valid() && Clean(session) && session.score == 0
      ensures session !in old(inUse) && inUse == old(inUse) + {session}
      ensures session in old(sessionList) || fresh(session)
      ensures old(sessionList) != [] ==> [session] + sessionList == old(sessionList) && made == old(made)
      ensures old(sessionList) == [] ==> fresh(session) && |sessionList| == 9
    {
      if |sessionList| == 0 {
        CreatSessionsPool();
      }
      session := sessionList[0];
      TakeOut(sessionList, 0);
      sessionList := sessionList[1..];
      inUse := inUse + {session};
    }

    /** DestrorySessionsFromPool(num): trim from the back. Pooled sessions are clean, so that their
        DestructResource has nothing left to do. */
    method DestrorySessionsFromPool(num: nat)
      requires Partitioned() && AllClean()
      modifies `sessionList, `destroyed
      ensures Partitioned() && AllClean()
      ensures sessionList == old(sessionList)[..if num <= |old(sessionList)| then |old(sessionList)| - num else 0]
    {
      var n := if |sessionList| < num then |sessionList| else num;
      while n > 0
        invariant 0 <= n <= |sessionList| <= |old(sessionList)|
        invariant |sessionList| - n == if num <= |old(sessionList)| then |old(sessionList)| - num else 0
        invariant sessionList == old(sessionList)[..|sessionList|]
        invariant Partitioned() && AllClean()
      {
        var last := |sessionList| - 1;
        TakeOut(sessionList, last);
        destroyed := destroyed + {sessionList[last]};
        sessionList := sessionList[..last];
        n := n - 1;
      }
    }

    /** The list part of RecycleSession. */
    method PushFront(session: UserSession)
      requires Valid() && session in inUse && Clean(session) && session.score == 0
      modifies `sessionList, `inUse, `destroyed
      ensures Valid() && inUse == old(inUse) - {session}
      ensures |sessionList| > 0 && sessionList[0] == session
      ensures sessionList == if |old(sessionList)| < 19 then [session] + old(sessionList)
                             else [session] + old(sessionList)[..9]
      ensures destroyed == if |old(sessionList)| + 1 < 2 * CONNECTION_MAX_STEP then old(destroyed)
                           else old(destroyed) + Elements(old(sessionList)[CONNECTION_MAX_STEP - 1..])
    {
      ghost var before := sessionList;
      sessionList := [session] + sessionList;
      inUse := inUse - {session};
      assert Elements(sessionList) == Elements(before) + {session};
      if |sessionList| >= 2 * CONNECTION_MAX_STEP {
        DestrorySessionsFromPool(CONNECTION_MAX_STEP);
        assert sessionList == ([session] + before)[..CONNECTION_MAX_STEP];
        Split([session] + before, CONNECTION_MAX_STEP);
        assert ([session] + before)[CONNECTION_MAX_STEP..] == before[CONNECTION_MAX_STEP - 1..];
      }
    }
  }

  lemma TakeOut<T>(s: seq<T>, k: nat)
    requires Distinct(s) && k < |s|
    ensures Elements(s[..k] + s[k + 1..]) == Elements(s) - {s[k]}
    ensures k == 0 ==> Elements(s[1..]) == Elements(s) - {s[0]}
    ensures k == |s| - 1 ==> Elements(s[..k]) == Elements(s) - {s[k]}
  {
    assert s == s[..k] + [s[k]] + s[k + 1..];
    assert k == 0 ==> s[..k] + s[k + 1..] == s[1..];
    assert k == |s| - 1 ==> s[..k] + s[k + 1..] == s[..k];
  }

  lemma Split<T>(s: seq<T>, k: nat)
    requires Distinct(s) && k <= |s|
    ensures Elements(s) == Elements(s[..k]) + Elements(s[k..]) && Elements(s[..k]) !! Elements(s[k..])
  {
    assert s == s[..k] + s[k..];
  }
}
