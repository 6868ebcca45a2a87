# blive_red_packet in Dafny

This project models a Node.js agent that watches live-stream rooms for "popularity red pockets" and tries to claim them with several accounts. The model follows the agent's own parts:

- **`Monitor`** models `src/redpacket_monitor.js`, the per-room monitor.
  - A red-pocket command above the price limit has three effects:
    - it raises the heartbeat flag;
    - it schedules a draw and a bag lookup for every account, after a delay computed from `draw_delay`, `last_time` and the previous `remove_time`;
    - it re-arms the single close timer.
  - The winner-list command scans the winners in order and, for each winner, the accounts in order. It reports the uid of the first (winner, account) pair where the account's `DedeUserID` loosely equals the winner's uid.
  - When the close timer fires, the monitor lowers the heartbeat flag. It then unfollows the room owner from every account whose cached attention list lacks the owner, but only if a red packet was seen. Then it closes the feed.
  - Each account's heartbeat loop starts at interval 6. Every later call sends the interval the previous call returned. The loop stops once it finds the flag lowered.
- **`Accounts`** models `src/buser.js`.
  - An account keeps a two-level memo store, keyed by method name and then by the serialised params, with `get`/`cache`.
  - It holds its parsed cookie.
- **`Api`** models the account's API methods.
  - A response with code 0 is projected to its payload. Any other code gives the method's fallback: `[]`, `false` or `60`.
  - `Api` also builds the heartbeat `hb` parameter, `${next_interval}|${room_id}|1|0` in base64.
- **`Cookie`** models the cookie parser `split(/\s*;\s*/)` then `split('=')`, shared by `src/buser.js` and `index.js`.
- **`Util`** models `list` and `sleep` from `src/util.js`.
- **`Discovery`** models `main.js`.
  - It scans page 1 of every area.
  - `roomid_set` makes sure no room gets a second monitor while one is running.
  - The account pool is built once, lazily.
  - Every monitor gets price limit 0 and draw delay 100.
- **`Legacy`** models the older single-account script `index.js`.
  - Its helpers are `cross`, `list`, `pipe`, `apply` and `parseCookie`.
  - Its monitor guards follow and unfollow with `_no_relation_modify`, and extends its close timer after a successful draw.
- **Support modules:**
  - `JsRuntime`: the JavaScript behaviours the code relies on:
    - `%` truncates toward zero and gives NaN for a divisor of 0;
    - `~~` is ToInt32;
    - Node's `setTimeout` clamps its delay;
    - the `\s` class;
    - `split`.
  - `Decimal`: `String(n)` and the string-to-number conversion behind `==`.
  - `Base64`: the base64 alphabet of section 4 of RFC 4648.

Time is an input (`nowMs`, what `Date.now()` returns while a handler runs). The close timer is kept as one absolute deadline, or none. An API call is represented by the response it receives, `(code, body)`. Requests and feed changes are appended to an action log, which records the time at which each delayed request fires.

In these points the model follows the source as written, where a reader might expect otherwise:

- `data_now` is `~~(Date.now()/1000)`, the 32-bit truncation, rather than a plain floor.
- The carry-over term of the draw delay, `remove_time && (remove_time - data_now)`, is in seconds. It is not multiplied by 1000 (`src/redpacket_monitor.js:71`).
- The close timer is re-armed for `remove_time - data_now + close_time`, which adds seconds to milliseconds (`src/redpacket_monitor.js:73`). Both of these are modelled as written.
- The new monitor issues no follow request before drawing. Only the older monitor in `index.js` follows.

## Model

| member | source | states |
|---|---|---|
| JsRuntime.Rem | src/redpacket_monitor.js:71 | `a % b` is NaN exactly when `b` is 0; otherwise it differs from `a` by a multiple of `b`, is smaller than `b` in magnitude and has the sign of `a` (the truncated remainder); a dividend already smaller than the divisor is returned unchanged |
| JsRuntime.ToInt32 | src/redpacket_monitor.js:56 | `~~x` lies in [-2^31, 2^31), is `x` itself inside that range, and is congruent to `x` modulo 2^32 |
| JsRuntime.EffectiveDelay | src/redpacket_monitor.js:59-71 | a timer waits between 1 and 2^31-1 ms; an in-range delay is kept; a NaN or out-of-range delay becomes 1 ms |
| JsRuntime.LeadingSpaces | src/buser.js:18 | counts the white-space characters at the start of a string, up to the first one that is not white space |
| JsRuntime.TrailingSpaces | src/buser.js:18 | counts the white-space characters at the end of a string, back to the last one that is not white space |
| JsRuntime.TrimStart | src/buser.js:18 | removing leading white space leaves a suffix of the string; every removed character is white space and the result does not start with white space |
| JsRuntime.TrimEnd | src/buser.js:18 | removing trailing white space leaves a prefix of the string; every removed character is white space and the result does not end with white space |
| JsRuntime.Trim | src/buser.js:18 | trimming both ends leaves a contiguous slice of the string with only white space around it and no white space at either of its ends |
| JsRuntime.TrimUnchanged | src/buser.js:18 | a string without white space at its ends is its own trim |
| JsRuntime.IndexOf | src/buser.js:19 | the position of the first occurrence of a character, or the length when it does not occur |
| JsRuntime.IndexOfAfter | src/buser.js:19 | in `a + c + b` with no `c` in `a`, the first `c` is right after `a` |
| JsRuntime.Split | src/buser.js:18-19 | `split(sep)` yields at least one piece, no piece contains `sep`, and joining the pieces with `sep` gives the string back |
| JsRuntime.SplitJoin | src/buser.js:18-19 | splitting undoes joining when no part contains the separator |
| JsRuntime.SplitNoSep | src/buser.js:19 | a string without the separator splits into itself |
| JsRuntime.SplitPrefix | src/buser.js:19 | splitting `a + sep + b`, with no separator in `a`, yields `a` followed by the pieces of `b` |
| Decimal.NatToString | src/buser.js:171 | the decimal form of a natural number is a non-empty string of digits without a leading zero |
| Decimal.IntToString | src/buser.js:171 | `String(n)` is digits for n >= 0, and a minus sign followed by digits for n < 0 |
| Decimal.DigitsValueOfNatToString | src/buser.js:171 | the digits written for `n` denote `n` |
| Decimal.ParseIntToString | src/buser.js:171 | reading back `String(n)` gives `n` |
| Decimal.IntToStringInjective | src/buser.js:171 | distinct integers are written as distinct strings |
| Decimal.StringToNumber | src/redpacket_monitor.js:82 | a non-empty string of digits converts to the number the digits denote; `"-"` followed by digits converts to minus that number; an empty or all-white-space string converts to 0 |
| Decimal.TrimDigits | src/redpacket_monitor.js:82 | a string of digits is left unchanged by the white-space trimming of the conversion |
| Decimal.TrimSigned | src/redpacket_monitor.js:82 | a minus sign followed by digits is left unchanged by the white-space trimming of the conversion |
| Decimal.LooseEqualsOwnString | src/redpacket_monitor.js:81-82 | `n == uid` holds when the cookie's uid string is the one JavaScript writes for `n` |
| Base64.SextetChar | src/buser.js:171 | every 6-bit value maps to a character of the base64 alphabet |
| Base64.CharSextetOfSextetChar | src/buser.js:171 | the alphabet table read backwards gives each 6-bit value back |
| Base64.EncodeGroup | src/buser.js:171 | three bytes encode as four alphabet characters |
| Base64.DecodeGroup | src/buser.js:171 | four characters decode to three bytes |
| Base64.Encode | src/buser.js:171 | the encoding is four characters per started group of three bytes, every character is in the alphabet or is the `=` pad, and without a partial group there is no padding |
| Base64.Decode | src/buser.js:171 | a decodable string has a length that is a multiple of four and gives three bytes per group less at most two of padding; a string of alphabet characters whose length is a multiple of four always decodes, to exactly three bytes per group |
| Base64.GroupRoundTrip | src/buser.js:171 | decoding an encoded three-byte group gives the three bytes |
| Base64.SingleRoundTrip | src/buser.js:171 | a single trailing byte, padded with `==`, decodes back to itself |
| Base64.PairRoundTrip | src/buser.js:171 | two trailing bytes, padded with `=`, decode back to themselves |
| Base64.DecodeLeadingGroup | src/buser.js:171 | a leading unpadded group decodes to its bytes, followed by the decoding of the rest |
| Base64.DecodeEncode | src/buser.js:171 | decoding the base64 encoding of any byte string gives the byte string |
| Api.Project | src/buser.js:74-153 | the value of a successful response has the shape its method returns; the projection lemmas below give its contents |
| Api.Fallback | src/buser.js:176-181 | the value of a failed response has the shape its method returns |
| Api.Decode | src/buser.js:74-79 | code 0 yields the projection of the payload, and any other code yields the method's fallback |
| Api.FlagIffCodeZero | src/buser.js:239-245 | draw and relation calls resolve to true exactly when the code is 0 |
| Api.ListFallbackIsEmpty | src/buser.js:121-127 | a failed call of any list or area method resolves to the empty list |
| Api.HeartBeatInterval | src/buser.js:176-181 | the heartbeat resolves to `data.next_interval` when the code is 0, and to 60 otherwise |
| Api.AreaListProjection | src/buser.js:74-75 | a successful area list resolves to the areas' ids, in order |
| Api.RoomListProjection | src/buser.js:100-101 | a successful room list resolves to one `[roomid, uid]` pair per room, in order |
| Api.AreaInfoProjection | src/buser.js:121-123 | a successful room-info lookup resolves to `[parent_area_id, area_id]` |
| Api.BagListProjection | src/buser.js:152-153 | a successful bag list resolves to one `[gift_name, corner_mark, gift_num]` triple per gift, in order, and to `[]` when the list is null |
| Api.AttentionListProjection | src/buser.js:137-138 | a successful attention-list response yields its list, or `[]` when the list is null |
| Api.HeartBeatPayload | src/buser.js:171 | the `hb` payload (interval, room id, 1 and 0, separated by vertical bars) is ASCII |
| Api.AsciiBytes | src/buser.js:171 | an ASCII string becomes one byte per character |
| Api.ParseHeartBeatPayloadRoundTrip | src/buser.js:171 | the payload determines the interval and the room id it was built from |
| Api.HeartBeatParam | src/buser.js:171 | the `hb` parameter is base64 text that decodes to the bytes of the payload |
| Api.HeartBeatParamRoundTrip | src/buser.js:171 | base64-decoding the `hb` parameter and parsing the payload gives back the interval and the room id |
| Cookie.TrimAtSeparators | src/buser.js:18 | piece i of the `;` split loses only white space, and only at the ends that touch a `;`; the result keeps no white space next to a `;` and takes its characters from the piece |
| Cookie.Segments | src/buser.js:18 | `split(/\s*;\s*/)` gives one segment per `;`-separated piece; no segment contains `;`; each is its piece with the white space around the separators removed |
| Cookie.SegmentEntry | src/buser.js:19 | the key is the text before the first `=` (the whole segment when there is none, with an undefined value); the value is the text between the first and the second `=` |
| Cookie.SegmentEntrySplit | src/buser.js:19 | the entry of a segment is the first piece of `split('=')` and, when there is one, the second |
| Cookie.Entries | src/buser.js:19 | entry i is the key and value of segment i |
| Cookie.ToMap | src/buser.js:17-20 | `new Map(entries)` holds every entry's key, and the last entry's value under its key |
| Cookie.ToMapKeys | src/buser.js:17-20 | a name is a key of the parsed map exactly when some segment carries it |
| Cookie.ToMapLastWins | src/buser.js:17-20 | a name's value is the value of its last segment, so a later duplicate overwrites an earlier one |
| Cookie.SegmentWithoutEquals | src/buser.js:19 | a segment without `=` gives its whole text as the key, with an undefined value |
| Cookie.SegmentKeepsFirstValue | src/buser.js:19 | of `k=v=rest`, only `v`, the text before the second `=`, is kept as the value |
| Cookie.SegmentKeyValue | src/buser.js:19 | the segment `k=v` gives the entry k -> v |
| Cookie.Parse | src/buser.js:17-20 | a name is a key of the parsed cookie exactly when some segment of the cookie carries it |
| Cookie.RenderedEntry | src/buser.js:18-19 | segment i of a rendered `k1=v1; k2=v2; ...` cookie is entry (ki, vi) |
| Cookie.ParseRender | src/buser.js:17-20 | parsing `k1=v1; k2=v2; ...` maps each name to the value of its last occurrence |
| Cookie.ParseTwoPairs | index.js:159-164 | `"k1=v1; k2=v2"` parses to exactly k1 -> v1 and k2 -> v2 |
| Accounts.Lookup | src/buser.js:36-42 | `get` is undefined when the method was never cached, and defined exactly when this method and params were stored |
| Accounts.Stored | src/buser.js:52-57 | caching adds the method to the store, adds the params under it, stores the result there, and keeps every other method and every other params entry |
| Accounts.LookupStored | src/buser.js:50-58 | after caching, a request with the same method and params reads back the stored result |
| Accounts.StoredKeepsOthers | src/buser.js:52-58 | caching changes no other (method, params) entry |
| Accounts.StoredOverwrites | src/buser.js:55-57 | caching twice under one key keeps only the later result |
| Accounts.OmittedParamsDifferFromEmpty | src/buser.js:40 | omitted params and `[]` are distinct keys |
| Accounts.BUser.constructor | src/buser.js:8-28 | the account holds the parsed cookie and an empty store |
| Accounts.BUser.Get | src/buser.js:36-42 | `get` is undefined for a method never cached, and a stored result has its method's shape |
| Accounts.BUser.Cache | src/buser.js:50-59 | `cache` stores the decoded response under (method, params), changes nothing else, makes `get` return it, and returns the account itself |
| Util.List | src/util.js:6-10 | `list(num)` has `num` elements, holds exactly 1..num, and is strictly increasing |
| Util.ListAt | src/util.js:9 | element n of `list(num)` is n + 1 |
| Util.ListSmall | src/util.js:7-9 | `list(0)` is empty and `list(1)` is `[1]` |
| Util.SleepMs | src/util.js:12-15 | `sleep(sec)` waits `sec * 1000` ms when that is a valid timer delay, and 1 ms otherwise |
| Monitor.DataNow | src/redpacket_monitor.js:56 | `data_now` is the time in whole seconds as long as that fits in 32 bits |
| Monitor.DrawDelayMs | src/redpacket_monitor.js:71 | the draw delay is NaN exactly when `last_time` is 0; otherwise, once the carry-over term `remove_time - data_now` (present only after a previous packet) is taken off, it is a whole number s of seconds with s congruent to `draw_delay` modulo `last_time`, smaller than `last_time` in magnitude and with the sign of `draw_delay`, which is `draw_delay % last_time` |
| Monitor.DrawDelayFirstPacket | src/redpacket_monitor.js:71 | draw delay 100 and a 30-second window on a first packet give 10000 ms |
| Monitor.HeartBeatStarts | src/redpacket_monitor.js:96 | one heartbeat loop starts per account, in account order |
| Monitor.FanOut | src/redpacket_monitor.js:59-70 | the fan-out holds, for each account in turn, a draw of this lot in this room and then a bag lookup, all at the same time |
| Monitor.Claims | src/redpacket_monitor.js:60-70 | the `forEach` over the accounts issues exactly the fan-out |
| Monitor.FanOutMembers | src/redpacket_monitor.js:60-70 | an action is in the fan-out exactly when it is one account's draw of this lot in this room, or that account's bag lookup |
| Monitor.ScanLength | src/redpacket_monitor.js:118-120 | `close` gets as far as the first account without a cached attention list |
| Monitor.Unfollows | src/redpacket_monitor.js:118-124 | every action of `close`'s loop is an unfollow of the owner by an account whose list lacks the owner, at most one per account and in account order; there are none without a red packet |
| Monitor.CloseEffects | src/redpacket_monitor.js:116-128 | `close` closes the feed exactly when every account has a cached list, and otherwise issues only unfollows of the owner |
| Monitor.CloseScan | src/redpacket_monitor.js:117-126 | the loop over the accounts' lists collects exactly those unfollows and completes exactly when no list is missing |
| Monitor.UnfollowsExactly | src/redpacket_monitor.js:118-124 | an account is unfollowed from the owner exactly when its list lacks the owner and a red packet was seen |
| Monitor.CloseUnfollowsExactly | src/redpacket_monitor.js:116-128 | with every list cached, `close` ends by closing the feed, and its only other actions are the unfollows above |
| Monitor.NoRedPacketNoUnfollow | src/redpacket_monitor.js:120 | without a red packet, nobody is unfollowed, whatever the lists hold |
| Monitor.HeartBeatRun | src/redpacket_monitor.js:96-103 | the loop sends at most one interval per iteration, the first being the starting one, only while the flag is up; it stops at a lowered flag, right after a rejected call, or when the iterations run out after an answered call |
| Monitor.HeartBeatRunStep | src/redpacket_monitor.js:98-101 | an answered iteration sends the current interval, sleeps for the returned one, and continues from it |
| Monitor.HeartBeatStopsWhenCleared | src/redpacket_monitor.js:98 | a loop that finds the flag lowered after k answered calls has sent exactly k intervals and stops because of the flag |
| Monitor.HeartBeatIntervals | src/redpacket_monitor.js:97-99 | the first interval sent is the starting one, and each later one is the previous call's `next_interval`, or 60 when that call failed |
| Monitor.HeartBeatParams | src/redpacket_monitor.js:99 | the loop makes one `hb` parameter per interval sent |
| Monitor.HeartBeatParamsAt | src/redpacket_monitor.js:99 | the k-th call's `hb` encodes the k-th interval and the room id |
| Monitor.HeartBeatLoop | src/redpacket_monitor.js:96-103 | one account's loop, started at interval 6, produces exactly the run described above and the `hb` parameter of each of its calls |
| Monitor.ParamsOf | src/redpacket_monitor.js:99 | the `hb` parameters, computed in order |
| Monitor.RedPacketMonitor.AttentionLists | src/redpacket_monitor.js:119 | there is one cached attention list per account |
| Monitor.RedPacketMonitor.constructor | src/redpacket_monitor.js:10-22 | a new monitor has no red packet, the flag lowered, `remove_time` 0, no timer, a 3-minute close time and limit 0 |
| Monitor.RedPacketMonitor.SetTotalPriceLimit | src/redpacket_monitor.js:32-35 | sets the price limit, changes nothing else, and returns the monitor |
| Monitor.RedPacketMonitor.SetDrawDelay | src/redpacket_monitor.js:42-45 | sets the draw delay, changes nothing else, and returns the monitor |
| Monitor.RedPacketMonitor.CloseTimerUpdate | src/redpacket_monitor.js:107-114 | the previous timer is replaced, so the only pending deadline is this call's `now + close_time`, clamped |
| Monitor.RedPacketMonitor.Start | src/redpacket_monitor.js:47-50 | arms the close timer for `close_time` and opens the feed |
| Monitor.RedPacketMonitor.WebHeartBeat | src/redpacket_monitor.js:93-105 | raises the flag, and starts one loop per account only when the flag was lowered; a second call does nothing |
| Monitor.RedPacketMonitor.OnRedPocketStart | src/redpacket_monitor.js:51-77 | at or below the limit nothing changes; above it, the monitor records the packet, raises the flag and sets `remove_time`; it schedules the fan-out at the delay computed from the old `remove_time` and re-arms the timer for `remove_time - data_now + close_time`; `close_time` stays unchanged |
| Monitor.RedPacketMonitor.OnWinnerList | src/redpacket_monitor.js:78-89 | reports NO exactly when no winner matches any account; otherwise reports the uid of the first matching (winner, account) pair |
| Monitor.RedPacketMonitor.FirstWinningAccount | src/redpacket_monitor.js:80-86 | the inner loop finds the first account whose `DedeUserID` loosely equals the winner's uid, or reports that none does |
| Monitor.RedPacketMonitor.Close | src/redpacket_monitor.js:116-128 | issues exactly the unfollows `close` makes and then closes the feed; stops after the unfollows issued so far when an account has no cached list |
| Monitor.RedPacketMonitor.OnCloseTimer | src/redpacket_monitor.js:110-113 | lowers the flag before closing, clears the timer, and with no red packet seen issues no unfollow |
| Discovery.RoomIdsSnoc | main.js:29 | one more pair adds its room id to the set |
| Discovery.RoomIdsConcat | main.js:25-29 | the rooms of two scans together are the rooms of each |
| Discovery.AdmittedSnoc | main.js:28 | one more pair starts a monitor exactly when its room is new |
| Discovery.AdmitStep | main.js:28-30 | one pair of the scan adds its room to the set and starts a monitor only if the room was not in it |
| Discovery.AdmittedDedup | main.js:28-30 | the pairs `Admitted` lets through start monitors; a scan starts monitors only for pairs it saw, never for a room already in the set, and never twice for one room; every room it saw ends up in the set |
| Discovery.AdmittedConcat | main.js:25-27 | scanning one list and then another starts what the first starts, then what the second starts given the rooms of the first |
| Discovery.ScanAdvance | main.js:25-29 | the set and the started monitors after one more page are those of the scan so far extended by that page |
| Discovery.ScanStep | main.js:27 | one page of the scan adds its rooms to the set and starts the monitors its new rooms admit |
| Discovery.AreaPairsSnoc | main.js:26 | one more page appends its pairs |
| Discovery.StartRunning | main.js:29-30 | a room is added to the set when its monitor starts, and no two running monitors share a room |
| Discovery.SettleRunning | main.js:35 | settling a monitor removes exactly its room from the set |
| Discovery.BUserPool.constructor | main.js:8-9 | the pool starts empty |
| Discovery.Build | main.js:16-19 | one new account for a cookie, holding that cookie and with its attention-list response cached |
| Discovery.BUserPool.Get | main.js:13-21 | an empty pool is built as one new account per cookie, in cookie order, each with its attention list cached; a non-empty pool is returned unchanged |
| Discovery.Launch | main.js:30-33 | a started monitor has price limit 0, draw delay 100, its feed open and its close timer armed |
| Discovery.Scanner.constructor | main.js:7 | `roomid_set` starts empty |
| Discovery.Scanner.Offer | main.js:28-35 | a room already in the set starts nothing; otherwise the room is added to the set and a configured monitor starts for it |
| Discovery.Scanner.OfferPairs | main.js:27-37 | offering a page adds its rooms to the set and starts the monitors the page admits |
| Discovery.Scanner.OfferArea | main.js:26-38 | offering an area's pages adds their rooms to the set and starts the monitors they admit |
| Discovery.Scanner.Start | main.js:24-40 | a scan of page 1 of every area adds every listed room to the set, and starts one monitor per room not already running, in scan order |
| Discovery.Scanner.Settle | main.js:35 | when a monitor's `start` settles, its room leaves the set |
| Legacy.Row | index.js:121 | the inner loop pushes `[f, s]` for each `s`, in order |
| Legacy.Cross | index.js:118-124 | `cross(a)(b)` pushes the pairs with `a` as the outer loop |
| Legacy.Pairs | index.js:118-124 | every pair of `cross(a)(b)` takes its first component from `a` and its second from `b` |
| Legacy.PairsLength | index.js:118-124 | `cross(a)(b)` has as many pairs as the product of the two lengths |
| Legacy.PairsAt | index.js:118-124 | pair number i·len(b) + j is `[a[i], b[j]]` |
| Legacy.PairsMembers | index.js:118-124 | `[f, s]` is a pair exactly when `f` is in `a` and `s` in `b` |
| Legacy.PageGrid | index.js:131-135 | `cross(list(2))(areas)` gives every area on page 1, then every area on page 2 |
| Legacy.PipeRun | index.js:92-97 | `pipe` runs at most one step per job, and the first job receives the initial undefined |
| Legacy.Pipe | index.js:92-97 | `pipe` awaits the jobs in order, each on the previous job's value |
| Legacy.PipeChain | index.js:92-97 | the first job receives undefined, job k + 1 receives what job k resolved to, and the run stops early only after a rejection |
| Legacy.Apply | index.js:143-152 | the callback receives `v` exactly when awaiting `fn(...arr)` gives `v`; a rejection never reaches it; only a null or undefined result throws |
| Legacy.FollowsAppend | index.js:197-200 | appending requests that are not follows adds no follow |
| Legacy.FollowsZero | index.js:197-200 | a log with no follow count holds no follow request |
| Legacy.RedPacketMonitor.constructor | index.js:167-175 | a new monitor has relation changes on, no red packet, no timer and a 300000 ms close time |
| Legacy.RedPacketMonitor.NoRelationModify | index.js:181-184 | switches relation changes off, changes nothing else, and returns the monitor |
| Legacy.RedPacketMonitor.CloseTimerUpdate | index.js:234-239 | arms a timer for `close_time` from now |
| Legacy.RedPacketMonitor.Start | index.js:186-190 | arms the close timer, switches relation changes off exactly when the owner is in the attention list, and opens the feed |
| Legacy.RedPacketMonitor.RelationModify | index.js:252-279 | with relation changes off, returns true and sends nothing; otherwise sends one request and returns true exactly when its code is 0 |
| Legacy.RedPacketMonitor.OnRedPocketStart | index.js:195-230 | the first red packet follows the owner, and later ones do not; a draw is requested only when relation changes are on; the bag is always looked up; the owner is followed at most once |
| Legacy.RedPacketMonitor.OnDrawReply | index.js:220-227 | a successful draw sets `close_time` to 300000 + last_time·1000 and replaces the pending timer; a failed one changes nothing |
| Legacy.RedPacketMonitor.OnCloseTimer | index.js:241-246 | the owner is unfollowed only if a red packet was seen, and the feed is then closed |

## Left out

- HTTP (axios, node-fetch, URLs, headers, form encoding) is not modelled. Each API call is represented by the response `(code, body)` it receives.
- A transport failure that makes a call reject is not modelled, except in the heartbeat loop. There the model ends that account's loop (`CallRejected`). In the source the rejection escapes the `forEach(async ...)` callback (src/redpacket_monitor.js:96) as an unhandled rejection, and so does a throw inside `close()` when the timer fires (src/redpacket_monitor.js:112). On Node 15 and later, whose default mode treats an unhandled rejection as fatal, that ends the whole process and every other monitor with it. The model stops at the one loop or the one `close`.
- The `bili-live-comment-ws` feed connection and its framing are not modelled. The handlers are called directly with each command's data.
- `console.log` output, the `log` helper and the `.then(it => this.log(...))` reports of the fan-out are not modelled. The action log records what is requested, not what is printed.
- The fan-out is a list in account order. Its Promise interleaving, and the order in which requests from different accounts reach the server, are not modelled.
- Monitor.RedPacketMonitor.OnCloseTimer: the timer callback, including `close()`, is one step. In the source `close()` awaits `Promise.all(...)` of the unfollow requests before `liveflow.close()` (src/redpacket_monitor.js:116-128). A red-pocket command arriving during that await can raise the flag again and re-arm the timer before the feed closes. That interleaving is not modelled.
- Real timers and `Date.now()` are not modelled. A handler receives the current time in ms, and the close timer is one pending deadline.
- Monitor.RedPacketMonitor.OnRedPocketStart: the draws and bag lookups are recorded at the time they fire, and the replies they get are not modelled, because the monitor only logs them.
- Monitor.DataNow: the contract spells out the value only while the time in seconds fits in 32 bits; beyond that it is the ToInt32 wrap-around that `JsRuntime.ToInt32` states.
- Monitor.DrawDelayMs: a `last_time` of 0 is modelled as the NaN delay (1 ms after Node's clamp) rather than excluded by a precondition.
- Decimal.IntToString: writes every integer as plain digits. JavaScript numbers are doubles: integers past 2^53 are not held exactly, and `String(n)` switches to exponent form from 10^21 on (`String(1e21)` is `"1e+21"`). The integers written this way are heartbeat intervals and room ids, which stay far below 10^21.
- Decimal.StringToNumber: covers the integer forms only: an optional sign, digits, surrounding white space, and the empty string. Decimal points, exponents, hex and `Infinity` are treated as not a number.
- Decimal.StringToNumber: converts digit strings to exact integers, and `Decimal.LooseEquals` (used by `Monitor.Wins`) compares exact integers. JavaScript converts to a double and compares doubles, so beyond 2^53 two different integers can compare equal. For example `9007199254740992 == "9007199254740993"` is true in JavaScript and false in the model. Uids below 2^53 compare the same way in both.
- Api.Decode: requires the response to be `Decodable`, meaning that a code-0 body holds the field the method reads. In the source a code-0 body without that field throws inside the method. For example `data.data.list.map` at src/buser.js:101 throws when `list` is null, and the call then rejects. That rejection is not modelled.
- `JSON.stringify(params)` is represented by the params themselves (an optional list of numbers). This is an injective key under which omitted params and `[]` stay distinct.
- Buffer's UTF-8 encoding is modelled for ASCII text only. That is all the heartbeat payload, made of digits, `-` and `|`, can hold.
- Discovery.Scanner.Start: one `nowMs` is used for every monitor the scan starts, and the announcing account's responses are inputs fixed for the scan.
- Discovery.Scanner.Start: the rejection of a monitor's `start()` appears only as `Settle`, which `.finally` runs on success and on failure alike.
- Discovery.Scanner.Start: no monitor settles while the scan runs. In the source the scan awaits `busers.get()` and `getRoomListPair(...)` (main.js:25-30), and a monitor that settles during those awaits removes its room from `roomid_set` (main.js:35). A room seen earlier in the scan and listed again later then starts a second monitor in the same scan, which the model's `Admitted` rules out. Interleaving `Settle` with the scan is not modelled.
- Legacy.RedPacketMonitor.OnRedPocketStart: the handler is one step. In the source it pauses at `await this.relation_modify(1)` (index.js:199) before the draw and the bag lookup (index.js:201-229). A second command arriving during that await sees `has_redpacket` already true and issues its draw and bag lookup first, so the log order `[Follow, Draw(e2), Bag, Draw(e1), Bag]` is possible in the source but not in the model.
- Legacy.RedPacketMonitor.OnCloseTimer: `close()` is one step. In the source it awaits the unfollow (index.js:243) before `liveflow.close()`, and a red-pocket command arriving during that await is not modelled.
- Legacy.RedPacketMonitor.Start: a second `start()` on the same monitor leaves the first close timer running beside the new one. The model keeps only the latest deadline.
- Legacy.RedPacketMonitor.CloseTimerUpdate: does not clear the previous timer. The model keeps only the latest deadline, which matches the source whenever the previous timer was cleared or had fired.
- `setGlobal`, `forEach`, the printing of the reply of `getBagList().then(console.log)` (the lookup itself is logged as `BagLookup`), the module-level `pipe([...])` driver of `index.js`, `cookie.json` and the `global` object are not modelled. `Discovery` takes the cookies as its constructor parameter, and the legacy `Start` takes the attention list as a parameter.
- The `LiveFlow.close()` and `liveflow.run()` promises are represented only by the `feedOpen` and `feed` state.
