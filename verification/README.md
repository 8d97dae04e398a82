# django-sspanel `ssserver/models.py` in Dafny

A model of the pure logic in the data layer of a Shadowsocks/ShadowsocksR
proxy panel. The panel stores proxy accounts (`SSUser`), servers (`Node`),
traffic logs (`TrafficLog`) and online snapshots (`NodeOnlineLog`). On those
rows it computes subscription links, allocates ports for new accounts,
counts online users and reports statistics. Database rows enter the model
as sequences of immutable records. Text fields are their UTF-8 byte strings.
The clock and the random choices are parameters.

Modules, one per component:

- `Common`: bytes, `Option`/`Result`, ASCII separators, splitting at the first or last separator.
- `Base64Url`: the URL- and filename-safe base64 of section 5 of RFC 4648, with `=` padding. It has an encoder and a strict decoder, proved mutually inverse.
- `Decimal`: the decimal text of the port in a link, and its parser.
- `Collections`: filter, count, sum and a stable insertion sort (Python's `sorted`), with stability proved.
- `Records`: the row types.
- `Links`: `get_ssr_link` and `get_ss_link`, plus parsers that a client would use to read the fields back.
- `Subscription`: `get_sub_code`.
- `Ports`: `clean` and `randomPord`.
- `Online`: the 75-second staleness window and `totalOnlineUser`.
- `Accounts`: per-account reports, the cohort counters and the top-ten `coreUser`.
- `Traffic`: the `TrafficLog` byte totals.

The model follows the code as written; these behaviours are easy to misread:

- An SS link always takes the password from the account. Only the method depends on `custom_method`.
- An automatically assigned port is not range-checked, so it can leave `(1024, 50000)`. `Ports.AutoPortNotRangeChecked` exhibits this.
- `get_sub_code` compares node levels with the level of the site account passed in, not with `ss_user.level`. `Subscription.SubCode` therefore takes that level as its own parameter.
- `totalOnlineUser` sums every stored snapshot, so two fresh snapshots of one node both count (`Online.CountsEverySnapshot`).

## Model

| member | source | states |
|---|---|---|
| Base64Url.Encode | ssserver/models.py:359-360 | The encoding of `n` bytes has length `4 * ceil(n / 3)`. It uses only `A-Z a-z 0-9 - _` and `=`, and `=` appears only in the last two positions. |
| Base64Url.DecodeEncode | ssserver/models.py:347-352 | Decoding the encoding of any byte string gives that byte string back. This covers the password, remarks and group fields inside an SSR link. |
| Base64Url.DecodeIffEncode | ssserver/models.py:372-373 | A string decodes to `s` exactly when it is the encoding of `s`. Encoding is injective, and the decoder accepts nothing else. |
| Decimal.ParseFormat | ssserver/models.py:354-355 | The decimal text of the port written into a link reads back as the same integer, negative ones included. |
| Links.SsrLink | ssserver/models.py:345-362 | The link starts with `ssr://`. The rest is padded base64url and decodes to exactly `server:port:protocol:method:obfs:b64(password)/?remarks=b64(name)&group=b64(group)`. |
| Links.SsrLinkRoundTrip | ssserver/models.py:345-362 | Reading an SSR link back gives the node's server, name and group and the user's port and password. Protocol, method and obfs come from the user when `custom_method == 1` and from the node otherwise. |
| Links.SsrQueryRoundTrip | ssserver/models.py:349-354 | The `?remarks=…&group=…` part gives back the node's name and group bytes unchanged. |
| Links.SsLink | ssserver/models.py:364-375 | The link starts with `ss://`. The rest is padded base64url and decodes to exactly `method:password@server:port`. |
| Links.SsLinkRoundTrip | ssserver/models.py:364-375 | Reading an SS link back gives the user's password and port and the node's server. The method is the user's when `custom_method == 1` and the node's otherwise. |
| Subscription.ListedNodes | ssserver/models.py:279-287 | The queried nodes are exactly the rows with `level <= user.level` and `show == '显示'`, each once per row, sorted ascending by primary key. |
| Subscription.SubCode | ssserver/models.py:280-287 | The subscription is empty exactly when no node passes the level and visibility filter. |
| Subscription.SubscriptionContents | ssserver/models.py:280-287 | The subscription splits into newline-terminated lines. These are the SSR links of the listed nodes in ascending `id` order, one per listed row. |
| Ports.Clean | ssserver/models.py:204-214 | A nonzero explicit port is kept iff `1024 < port < 50000` and is rejected otherwise. An unset or 0 port becomes `START_PORT` when there are no accounts. Otherwise it becomes `max + 2` or `max + 3`, which is above every existing port. |
| Ports.AutoPortKeepsDistinct | ssserver/models.py:209-214 | Adding an automatically assigned port to a table of distinct ports keeps the ports distinct. |
| Ports.AutoPortNotRangeChecked | ssserver/models.py:209-212 | After a maximum port of 49999, the assigned port is 50001 or 50002, which is outside the explicit range. |
| Ports.RandomPort | ssserver/models.py:80-94 | An empty table fails, as `max()` of the empty list does. Otherwise the result is never an existing port. It lies in `[1025, max]` when that range has a free port, and is `max + 1` when it has none. |
| Online.OnlineWindow | ssserver/models.py:420-432 | A snapshot is online iff `log_time >= now - 75`. Its online-user value is the stored count when online and 0 when stale. |
| Online.StalenessExamples | ssserver/models.py:420-425 | A snapshot 74 seconds old is online. One 76 seconds old is stale and contributes 0. |
| Online.TotalOnlineUser | ssserver/models.py:406-409 | The total equals the sum of stored counts over the fresh snapshots. With non-negative counts it lies between 0 and the sum of all stored counts. It is 0 when every snapshot is stale. |
| Online.CountsEverySnapshot | ssserver/models.py:406-409 | Two fresh snapshots of the same node are both counted. |
| Accounts.UnusedTraffic | ssserver/models.py:186-188 | The unused quota plus the used traffic equals the quota. The value is negative exactly when the user is over quota. |
| Accounts.UsedPercentage | ssserver/models.py:190-195 | The result is the literal `100` exactly when the quota is 0. Otherwise it is the ratio of used traffic to the nonzero quota. |
| Accounts.CheckInComparesDayOnly | ssserver/models.py:197-202 | The check-in test compares only the day of the month: any earlier date with today's day counts as today (December 15 against January 15), another day of this month does not, and a NULL check-in time fails. |
| Accounts.CheckedInTodayCount | ssserver/models.py:55-58 | The count fails iff some account's check-in time is NULL. Otherwise it is at most the number of accounts, 0 iff no account's check-in day matches today's, and equal to the number of accounts iff all match. |
| Accounts.NeverCheckedInCount | ssserver/models.py:60-63 | The count fails iff some account's check-in time is NULL. Otherwise it is 0 iff no check-in time lies in 1970, and equals the number of accounts iff all do. |
| Accounts.NeverUsedCount | ssserver/models.py:65-68 | The count is 0 iff every account has a nonzero last-use time, and equals the number of accounts iff all are 0. |
| Accounts.NeverUsedPartition | ssserver/models.py:65-68 | Never-used accounts plus used accounts add up to all accounts. |
| Accounts.Ranked | ssserver/models.py:73-77 | The ranking holds exactly the accounts with download traffic above 0, each once per row, in descending order of total traffic. |
| Accounts.CoreUsers | ssserver/models.py:70-78 | It returns `min(10, candidates)` pairs of an account that has downloaded and its total traffic, in non-increasing traffic order. |
| Accounts.CoreUsersAreTop | ssserver/models.py:73-78 | The report is a prefix of the ranking. No candidate left out has more traffic than any reported account. |
| Accounts.CoreUsersKeepQueryOrder | ssserver/models.py:77-77 | Candidates with equal traffic keep the order the query returned them in (the sort is stable). |
| Traffic.NodeTraffic | ssserver/models.py:225-231 | The byte total of a node is non-negative for non-negative counters, and 0 when no log is on the node. |
| Traffic.UserNodeTraffic | ssserver/models.py:233-239 | The byte total of a user on a node is non-negative, and 0 when no log matches both. |
| Traffic.DayTraffic | ssserver/models.py:241-248 | The byte total of a user on a node on one day is non-negative, and 0 when no log matches node and user. |
| Traffic.TrafficReportsNest | ssserver/models.py:225-248 | With non-negative counters: day total ≤ user-on-node total ≤ node total. |

## Left out

- Django and ORM plumbing is left out: field declarations, `Meta` (apart from the node ordering), column names, `__str__`, and validators other than the port rule. One of those is the six-character password minimum. Query results are passed in as sequences.
- Floating-point GB values and their formatting are left out: `get_traffic`, `get_transfer`, the `'{:.2f}'` text of `get_used_percentage` and `get_unused_traffic`, and the `round(..., 2)` results of `TrafficLog`. The model keeps the integer byte totals. It also keeps the zero-quota `'100'` guard.
- The float fields `TrafficLog.rate` and `Node.traffic_rate` are not read by the modelled code and are left out. So are the text fields `TrafficLog.traffic` and `Node.info`.
- Online.TotalOnlineUser / Accounts.CheckedInTodayCount: the source reads the clock once per element (`int(time.time())` in each `get_oneline_status` call, `datetime.now()` in each `get_check_in` call). The model reads it once per count, so a snapshot that turns stale, or a count that runs past midnight, while the loop runs is not modelled.
- Clock readings are parameters: `time.time()` (already truncated by `int`) and `datetime.now()`. `get_last_use_time` (a timestamp conversion) is left out. Time zones are not modelled. In particular, the default check-in time `fromtimestamp(0)` is read in local time; a check-in time is taken as the calendar fields it has.
- The default password comes from `shadowsocks.tools`. That helper is not part of this model.
- Random choices are not modelled as random: `choice([2, 3])` is the `step` parameter of `Ports.Clean`. The `choice` of `randomPord` is an arbitrary pick from the free ports.
- `NodeInfoLog` is a record without behaviour.
- The non-atomic "read the maximum port, then insert" sequence races across concurrent requests. This is a database concern and is left out.
- UTF-8 encoding of Python strings is left out: every text field is given as its bytes.
- Python's `urlsafe_b64decode` accepts more than the strict decoder here, which is only the partner of the encoder.
- Links.SsrLinkRoundTrip: proved only for protocol, method and obfs values without `:`, because a client could not otherwise tell the fields apart. The panel's choice lists satisfy this.
- Links.SsLinkRoundTrip: proved only for a method without `:` and a server without `@`, for the same reason.
- Accounts.CoreUsers: returns each account's traffic in bytes rather than the GB text of `get_traffic`.
- Traffic.DayTraffic: compares the stored date's calendar fields as given, without the time-zone conversion the ORM applies.
