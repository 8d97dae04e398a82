/** The database rows the panel reads, one datatype per model class of
    `ssserver/models.py`. Only the fields some modelled operation reads are
    kept; Django-only plumbing (foreign keys, choices, verbose names) and the
    floating-point rates are not. Text fields are UTF-8 byte strings. */
module Records {
  import opened Common

  /** A calendar date-time reduced to the parts the code compares. */
  datatype DateTime = DateTime(year: int, month: int, day: int)

  /** `SSUser`: one proxy account. */
  datatype SSUser = SSUser(
    password: seq<byte>,
    port: int,
    lastUseTime: int,           // column `t`; 0 means never used
    uploadTraffic: int,         // column `u`, bytes
    downloadTraffic: int,       // column `d`, bytes
    transferEnable: int,        // byte quota
    cipher: seq<byte>,          // column `method`, the cipher name
    protocol: seq<byte>,
    obfs: seq<byte>,
    lastCheckInTime: Option<DateTime>  // nullable column; None is NULL
  )

  /** `TrafficLog`: one reporting interval of one user on one node. */
  datatype TrafficLog = TrafficLog(
    userId: int,
    nodeId: int,
    uploadTraffic: int,
    downloadTraffic: int,
    logTime: int,
    logDate: DateTime
  )

  /** `Node`: a proxy server. `id` is the table's primary key, which orders
      node queries. */
  datatype Node = Node(
    id: int,
    name: seq<byte>,
    server: seq<byte>,
    cipher: seq<byte>,          // column `method`, the cipher name
    customMethod: int,
    protocol: seq<byte>,
    obfs: seq<byte>,
    level: nat,
    show: seq<byte>,
    group: seq<byte>
  )

  /** `NodeOnlineLog`: a snapshot of how many users a node reports online. */
  datatype NodeOnlineLog = NodeOnlineLog(nodeId: int, onlineUser: int, logTime: int)

  /** The `show` value of a listed node, "显示" in UTF-8. */
  const Shown: seq<byte> := [0xE6, 0x98, 0xBE, 0xE7, 0xA4, 0xBA]

  /** Total bytes a user has moved, upload plus download. */
  function UsedTraffic(u: SSUser): int {
    u.uploadTraffic + u.downloadTraffic
  }
}
