/** `TrafficLog`'s aggregations: the bytes logged on a node, by one user on
    a node, and by one user on a node on one calendar day. The source turns
    each byte total into gigabytes rounded to two places; the model keeps
    the byte totals. */
module Traffic {
  import opened Records
  import opened Collections

  /** Bytes one log entry records, upload plus download. */
  function LogBytes(log: TrafficLog): int {
    log.uploadTraffic + log.downloadTraffic
  }

  function OnNode(nodeId: int): TrafficLog -> bool {
    (log: TrafficLog) => log.nodeId == nodeId
  }

  function OnNodeBy(nodeId: int, userId: int): TrafficLog -> bool {
    (log: TrafficLog) => log.nodeId == nodeId && log.userId == userId
  }

  /** The date filter `log_date__year`, `__month` and `__day`. */
  function OnNodeByOn(nodeId: int, userId: int, date: DateTime): TrafficLog -> bool {
    (log: TrafficLog) => log.nodeId == nodeId && log.userId == userId
        && log.logDate.year == date.year && log.logDate.month == date.month && log.logDate.day == date.day
  }

  /** Logged counters are byte counts, never negative. */
  predicate Counted(logs: seq<TrafficLog>) {
    forall i :: 0 <= i < |logs| ==> logs[i].uploadTraffic >= 0 && logs[i].downloadTraffic >= 0
  }

  /** `totalTraffic(node_id)` in bytes. */
  function NodeTraffic(logs: seq<TrafficLog>, nodeId: int): (total: int)
    ensures Counted(logs) ==> total >= 0
    ensures (forall i :: 0 <= i < |logs| ==> logs[i].nodeId != nodeId) ==> total == 0
  {
    FilterMembers(logs, OnNode(nodeId));
    NoMatchSumsToZero(logs, OnNode(nodeId));
    SumOf(Filter(logs, OnNode(nodeId)), LogBytes)
  }

  /** `getUserTraffic(node_id, user_id)` in bytes. */
  function UserNodeTraffic(logs: seq<TrafficLog>, nodeId: int, userId: int): (total: int)
    ensures Counted(logs) ==> total >= 0
    ensures (forall i :: 0 <= i < |logs| ==> logs[i].nodeId != nodeId || logs[i].userId != userId) ==> total == 0
  {
    FilterMembers(logs, OnNodeBy(nodeId, userId));
    NoMatchSumsToZero(logs, OnNodeBy(nodeId, userId));
    SumOf(Filter(logs, OnNodeBy(nodeId, userId)), LogBytes)
  }

  /** `getTrafficByDay(node_id, user_id, date)` in bytes. */
  function DayTraffic(logs: seq<TrafficLog>, nodeId: int, userId: int, date: DateTime): (total: int)
    ensures Counted(logs) ==> total >= 0
    ensures (forall i :: 0 <= i < |logs| ==> logs[i].nodeId != nodeId || logs[i].userId != userId) ==> total == 0
  {
    FilterMembers(logs, OnNodeByOn(nodeId, userId, date));
    NoMatchSumsToZero(logs, OnNodeByOn(nodeId, userId, date));
    SumOf(Filter(logs, OnNodeByOn(nodeId, userId, date)), LogBytes)
  }

  lemma NoMatchSumsToZero(logs: seq<TrafficLog>, p: TrafficLog -> bool)
    ensures (forall i :: 0 <= i < |logs| ==> !p(logs[i])) ==> SumOf(Filter(logs, p), LogBytes) == 0
  {
    if forall i :: 0 <= i < |logs| ==> !p(logs[i]) {
      FilterNone(logs, p);
    }
  }

  /** The three reports nest: a user's traffic on one day of a node is part
      of the user's traffic on the node, which is part of the node's. */
  lemma TrafficReportsNest(logs: seq<TrafficLog>, nodeId: int, userId: int, date: DateTime)
    requires Counted(logs)
    ensures DayTraffic(logs, nodeId, userId, date) <= UserNodeTraffic(logs, nodeId, userId)
    ensures UserNodeTraffic(logs, nodeId, userId) <= NodeTraffic(logs, nodeId)
  {
    assert forall i :: 0 <= i < |logs| ==> LogBytes(logs[i]) >= 0;
    SumOfFilterMonotone(logs, LogBytes, OnNodeByOn(nodeId, userId, date), OnNodeBy(nodeId, userId));
    SumOfFilterMonotone(logs, LogBytes, OnNodeBy(nodeId, userId), OnNode(nodeId));
  }
}
