/** `NodeOnlineLog`: whether a node's snapshot is fresh and how many users
    are online across the snapshots. The clock reading `int(time.time())`
    is the parameter `now`. */
module Online {
  import opened Records
  import opened Collections

  /** A snapshot older than this many seconds no longer counts. */
  const StaleAfter := 75

  /** `get_oneline_status`: stale once `now - log_time` exceeds 75. */
  predicate IsOnline(log: NodeOnlineLog, now: int) {
    !(now - log.logTime > StaleAfter)
  }

  function OnlineAt(now: int): NodeOnlineLog -> bool {
    log => IsOnline(log, now)
  }

  /** The count a snapshot stores, whether fresh or not. */
  function StoredCount(log: NodeOnlineLog): int {
    log.onlineUser
  }

  /** `get_online_user`: the stored count while fresh, else 0. */
  function OnlineUser(log: NodeOnlineLog, now: int): int {
    if IsOnline(log, now) then log.onlineUser else 0
  }

  /** A snapshot is fresh exactly when it was taken at most 75 seconds
      before `now` (or after it). */
  lemma OnlineWindow(log: NodeOnlineLog, now: int)
    ensures IsOnline(log, now) <==> log.logTime >= now - 75
    ensures OnlineUser(log, now) == (if log.logTime >= now - 75 then log.onlineUser else 0)
  {
  }

  /** A snapshot 74 seconds old is fresh; one 76 seconds old is stale. */
  lemma StalenessExamples(nodeId: int, count: int, now: int)
    ensures IsOnline(NodeOnlineLog(nodeId, count, now - 74), now)
    ensures !IsOnline(NodeOnlineLog(nodeId, count, now - 76), now)
    ensures OnlineUser(NodeOnlineLog(nodeId, count, now - 76), now) == 0
  {
  }

  /** `totalOnlineUser`: the sum of `get_online_user` over every stored
      snapshot. It equals the stored counts summed over the fresh snapshots
      only, and with non-negative counts it lies between 0 and the sum of
      all stored counts. */
  function TotalOnlineUser(logs: seq<NodeOnlineLog>, now: int): (total: int)
    ensures total == SumOf(Filter(logs, OnlineAt(now)), StoredCount)
    ensures (forall i :: 0 <= i < |logs| ==> logs[i].onlineUser >= 0) ==> 0 <= total <= SumOf(logs, StoredCount)
    ensures (forall i :: 0 <= i < |logs| ==> !IsOnline(logs[i], now)) ==> total == 0
    decreases |logs|
  {
    if |logs| == 0 then 0
    else
      var rest := TotalOnlineUser(logs[1..], now);
      assert forall i :: 1 <= i < |logs| ==> logs[i] == logs[1..][i - 1];
      OnlineUser(logs[0], now) + rest
  }

  /** Snapshots are not reduced to the latest per node: two fresh snapshots
      of one node both count. */
  lemma CountsEverySnapshot(a: NodeOnlineLog, b: NodeOnlineLog, now: int)
    requires a.nodeId == b.nodeId
    requires IsOnline(a, now) && IsOnline(b, now)
    ensures TotalOnlineUser([a, b], now) == a.onlineUser + b.onlineUser
  {
    assert [a, b][1..] == [b];
  }
}
