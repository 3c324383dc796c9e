# live-assistant-panel: channel bookkeeping, keyword dispatch and link editing

This project is a Dafny model of the two small cores of the live-assistant panel.

The **server side** (`server/main.py`) has three parts:

- `ConnectionManager` keeps, per user id, the list of plugin sockets and the list of admin-console sockets.
  - Connecting appends a socket.
  - Disconnecting removes the first occurrence of the socket and deletes the user's entry once it is empty.
  - `broadcast_log` sends one log to every admin socket of the user. A failed send is logged and the loop goes on.
- The plugin endpoint, `/ws/plugin/{user_id}`:
  - It refuses unknown users.
  - It registers the socket.
  - It builds `keyword_map`, a Python dict from keyword to link id, by visiting the stored links in order.
  - For every recognised fragment with non-empty text, it broadcasts one "info" log. It then scans the dict in insertion order. The first keyword that is a case-sensitive substring of the text produces one click to the plugin, one "success" broadcast and one persisted log row, and then the scan stops.
- `update_config` deletes the user's stored links, stores the submitted list and appends one `update_config` audit row. `get_config` reads the list back.

The **client side** (`client/src/pages/Home.tsx`) is the link editor:

- `DEFAULT_CONFIG`.
- The pure list transformations behind adding and removing a keyword (trimmed, blank and duplicate rejected) and adding and removing a link (new id is the largest id plus one, or 1).

## Module layout

- `wrappers.dfy`: `Option`.
- `sequences.dfy`:
  - Distinctness and subsequence predicates.
  - `RemoveAll`, which is JavaScript's `filter(k => k !== x)`.
- `pydict.dfy`: a Python `dict` as a sequence of key/value pairs in insertion order.
  - `d[k] = v` keeps an existing key's position and replaces its value.
  - A new key is appended.
- `text.dfy`:
  - Python's `keyword in text`.
  - JavaScript's `trim` with its exact whitespace set.
  - `str(n)`.
- `schemas.dfy`: the rows of the `configs`, `logs` and `audits` tables and the `ConfigUpdate` payload.
- `connections.dfy`: the `ConnectionManager` class.
  - Its fields are two `map<int, seq<SocketId>>`.
  - Its methods are specified by the functions `Attach` and `Detach`.
- `config_store.dfy`: the `Store` class.
  - `configs` and `audits` are sequences of rows.
  - `UpdateConfig` rewrites `configs` with a loop.
  - `GetConfig` reads them back.
- `dispatch.dfy`:
  - The nested loops that build `keyword_map`.
  - The match loop over one fragment, with the effects it has in order.
  - Opening the plugin channel.
- `link_editor.dfy`:
  - The Home.tsx handlers as functions.
  - The editor invariant: unique ids, and keywords that are trimmed, non-blank and duplicate-free within a link.

## Model

| member | source | states |
|---|---|---|
| Connections.ConnectionManager.constructor | server/main.py:45-49 | A new manager has no plugin and no admin connections. |
| Connections.ConnectionManager.ConnectPlugin | server/main.py:53-57 | The plugin map becomes `Attach` of the old map. No user maps to an empty list, before or after. |
| Connections.ConnectionManager.ConnectAdmin | server/main.py:68-72 | The same, for the admin map. |
| Connections.ConnectionManager.DisconnectPlugin | server/main.py:60-65 | The plugin map becomes `Detach` of the old map. The "no empty list" invariant is kept. |
| Connections.ConnectionManager.DisconnectAdmin | server/main.py:75-80 | The same, for the admin map. |
| Connections.ConnectionManager.BroadcastLog | server/main.py:83-90 | One delivery attempt per admin socket of the user, in list order. Attempt i goes to socket i. It is delivered exactly when that socket's send does not fail, whatever happened to the other sockets. A user without admin sockets gets no attempt. |
| Connections.Attach | server/main.py:55-57 | The user's list is created if missing. The socket becomes its last element and the earlier elements are the old list. Every other user's entry is unchanged. |
| Connections.Detach | server/main.py:61-65 | An unknown user leaves the map unchanged. Otherwise the user's list loses the first occurrence of the socket. The key is deleted exactly when the list becomes empty. Other users are untouched. Non-emptiness of all lists is preserved. |
| Connections.RemoveFirst | server/main.py:62-63 | Python's `list.remove` guarded by `in`: removing an absent socket changes nothing. |
| Connections.RemoveFirstAt | server/main.py:63 | Only the first occurrence is removed: the result is the list with index `FirstIndex` cut out. |
| Connections.RemoveFirstMultiset | server/main.py:63 | Exactly one copy of the socket leaves the list. |
| Connections.DetachUnregistered | server/main.py:61-65 | Disconnecting a socket that is not registered for the user leaves the map unchanged. |
| Connections.AttachDetach | server/main.py:53-65 | Connecting a new socket and then disconnecting it restores the map exactly. |
| Connections.ReplayKeepsNoEmptyLists | server/main.py:53-80 | Any sequence of connects and disconnects keeps "no user maps to an empty list". |
| ConfigStore.Store.constructor | server/main.py:22 | The store starts with no config and no audit rows. |
| ConfigStore.Store.UpdateConfig | server/main.py:124-139 | The other users' rows are kept, followed by one row per submitted link in order, with no validation. Exactly one `update_config` audit row with details `Updated <n> links` and address `unknown` is appended. Afterwards `GetConfig` of the user is exactly the submitted list, and every other user's `GetConfig` is unchanged. |
| ConfigStore.ConfigsOf | server/main.py:121-122 | The filter-and-map behind `get_config`. A user's links never outnumber the stored rows. What the list holds and in what order is stated by `ConfigsOfMembers` and `ConfigsOfAppend`. |
| ConfigStore.Store.GetConfig | server/main.py:119-122 | `get_config` is `ConfigsOf` of the `configs` table: at most one link per stored row. |
| ConfigStore.Store.GetConfigMembers | server/main.py:119-122 | A link is in `get_config`'s answer exactly when the table holds a row of that user with that id and those keywords. |
| ConfigStore.RowsFor | server/main.py:130-132 | The insert loop adds exactly one row per submitted link. `ConfigsOfRowsFor` shows they read back as the submitted list. |
| ConfigStore.UpdateDetails | server/main.py:135 | The audit details are `Updated `, then digits that denote the number of submitted links, then ` links`. The digits have no leading zero, and 0 is written `0`, as `str` writes it. |
| ConfigStore.ConfigsOfMembers | server/main.py:121-122 | A link is returned for a user exactly when a row of that user with that id and those keywords is stored. |
| ConfigStore.ConfigsOfAppend | server/main.py:121-122 | Reading the links distributes over concatenated tables. |
| ConfigStore.RowsOfOthers | server/main.py:127 | The delete keeps exactly the rows of other users. |
| ConfigStore.ConfigsOfRowsFor | server/main.py:130-132 | The inserted rows read back, for their user, as the submitted list. Other users see none of them. |
| ConfigStore.ConfigsOfRowsOfOthers | server/main.py:127 | After the delete the user has no links left, and every other user's links are unchanged. |
| PyDict.Keys | server/main.py:181 | The keys of the dict, one per entry, in insertion order. |
| PyDict.Lookup | server/main.py:185 | A lookup misses exactly when the key is absent. |
| PyDict.Assign | server/main.py:185 | `d[k] = v` adds at most one entry. Where the key goes and what every key maps to afterwards are stated by `AssignKeys`, `AssignLookup` and `AssignWellFormed`. |
| PyDict.AssignKeys | server/main.py:185 | `d[k] = v` keeps an existing key in place and appends a new key at the end. |
| PyDict.AssignLookup | server/main.py:185 | After `d[k] = v`, `k` maps to `v` and every other key maps to what it mapped to before. |
| PyDict.AssignWellFormed | server/main.py:185 | Assignment never duplicates a key. |
| PyDict.LookupItem | server/main.py:211 | Iterating `items()` yields each key with the value a lookup returns. |
| PyDict.FirstOccurrencesAppend | server/main.py:182-185 | Inserting keys in two batches orders them as one batch would. |
| PyDict.FirstOccurrencesMembers | server/main.py:182-185 | The first-occurrence order holds each inserted key once and nothing else. |
| Dispatch.AssignAll | server/main.py:184-185 | The inner loop adds at most one entry per keyword. `AssignAllKeys` and `AssignAllLookup` state its keys and values. |
| Dispatch.KeywordMapOf | server/main.py:180-185 | The value the two nested loops build: at most one entry per stored keyword. `KeywordMapKeys` and `KeywordMapLastWins` state its keys, their order and the link each keyword maps to. |
| Dispatch.BuildKeywordMap | server/main.py:181-185 | The nested loops compute `KeywordMapOf` of the stored links. |
| Dispatch.AssignAllKeys | server/main.py:184-185 | The inner loop keeps the keys distinct. New keywords are appended in first-occurrence order. |
| Dispatch.AssignAllLookup | server/main.py:184-185 | After the inner loop, every keyword of the link maps to that link's id and every other key is unchanged. |
| Dispatch.KeywordMapKeys | server/main.py:180-185 | The keys of `keyword_map` are all stored keywords, each once, in the order the loops first meet them. |
| Dispatch.KeywordMapLastWins | server/main.py:180-185 | A keyword maps to the id of the last link that lists it. A keyword no link lists is absent. |
| Dispatch.LastLinkWith | server/main.py:182-185 | No result exactly when no link lists the keyword. Otherwise the result is the id of a link that lists it and after which no link lists it. |
| Dispatch.FirstMatch | server/main.py:211-212 | No result exactly when no key of the map occurs in the text. Otherwise the result is the first entry, in map order, whose keyword occurs in it. |
| Dispatch.FragmentEffects | server/main.py:200-234 | Empty text has no effect. A non-empty fragment first produces one info log. Nothing more exactly when no key occurs in the text. Otherwise exactly three more effects follow: one click to the link of the first matching entry, its success log, and its persisted `success` row. No click appears anywhere else. |
| Dispatch.ProcessFragment | server/main.py:200-234 | The match loop with its `break` produces exactly `FragmentEffects`. |
| Dispatch.ClickTarget | server/main.py:180-214 | Any click goes to the last link that lists some keyword occurring in the fragment. |
| Dispatch.ConfiguredKeywordClicks | server/main.py:180-214 | A non-empty fragment containing any stored keyword produces a click. |
| Dispatch.CaseSensitiveMatch | server/main.py:212 | "buy now" does not match "please Buy Now please": only the info log is produced. |
| Dispatch.SingleLinkMap | server/main.py:181-185 | One link with one keyword gives a one-entry map. |
| Dispatch.SharedKeywordLastLinkWins | server/main.py:182-214 | Two links listing "hi" give the map `{"hi": 2}`, and "hi there" clicks link 2. |
| Dispatch.OpenPluginChannel | server/main.py:170-185 | An unknown user is refused with nothing registered. Otherwise the socket is attached to the user's plugin list, and the keyword map is built from the user's stored links at that moment. |
| Text.IsSubstring | server/main.py:212 | Python's `keyword in text`. A keyword that occurs is no longer than the text. The empty keyword occurs in every text, and every text occurs in itself. |
| Text.AbsentFirstChar | server/main.py:212 | A keyword whose first character is absent from the text is not a substring of it. |
| Text.Trim | client/src/pages/Home.tsx:53 | The trimmed string is a slice `s[lo..hi]` of the input, and everything before `lo` and from `hi` on is whitespace: only leading and trailing whitespace is dropped. It is empty exactly when the input is all whitespace. Otherwise it neither starts nor ends with whitespace. |
| Text.TrimIdempotent | client/src/pages/Home.tsx:58-62 | Trimming a trimmed keyword changes nothing. |
| Text.NatToString | server/main.py:135 | `str(n)` is a non-empty string of decimal digits. It starts with `0` exactly when `n` is 0, and then it is `"0"`. |
| Text.NatToStringValue | server/main.py:135 | The digits `str(n)` writes denote `n`. |
| Sequences.RemoveAll | client/src/pages/Home.tsx:77 | The filter keeps exactly the elements different from the removed one, with every other element's count unchanged. Filtering an absent element changes nothing. |
| Sequences.RemoveAllIsSubsequence | client/src/pages/Home.tsx:77 | The filter keeps the order of what remains. |
| Sequences.RemoveAllDistinct | client/src/pages/Home.tsx:77 | Filtering a duplicate-free list leaves it duplicate-free. |
| Sequences.RemoveAllAppended | client/src/pages/Home.tsx:77 | Appending a new element and then filtering it out gives back the list. |
| LinkEditor.DefaultConfig | client/src/pages/Home.tsx:20-23 | Five links with ids 1 to 5 and no keywords. |
| LinkEditor.DefaultConfigInvariant | client/src/pages/Home.tsx:20-23 | The default list satisfies the editor invariant. |
| LinkEditor.AddKeyword | client/src/pages/Home.tsx:52-66 | A blank or whitespace-only keyword changes nothing. Otherwise the list keeps its length and ids. Links with another id are unchanged. A target link already listing the trimmed keyword is unchanged. Any other target link gets the trimmed keyword appended. |
| LinkEditor.AddKeywordKeepsInvariant | client/src/pages/Home.tsx:52-66 | Adding a keyword keeps ids unique and keywords trimmed, non-blank and duplicate-free. |
| LinkEditor.RemoveKeyword | client/src/pages/Home.tsx:71-81 | The list keeps its length and ids, and links with another id are unchanged. A target link loses every occurrence of the keyword. Its other keywords keep their counts and their order. |
| LinkEditor.RemoveKeywordKeepsInvariant | client/src/pages/Home.tsx:71-81 | Removing a keyword keeps the editor invariant. |
| LinkEditor.AddThenRemoveKeyword | client/src/pages/Home.tsx:52-81 | Adding a new keyword and then removing it restores the list. |
| LinkEditor.MaxId | client/src/pages/Home.tsx:86 | `Math.max` over the ids is an upper bound of every id and is attained. |
| LinkEditor.AddLink | client/src/pages/Home.tsx:85-87 | The old links stay in place and order. One link without keywords is appended. Its id is strictly greater than every existing id. It is 1 for an empty list and otherwise one more than some existing id. |
| LinkEditor.AddLinkKeepsInvariant | client/src/pages/Home.tsx:85-87 | Adding a link keeps the editor invariant. |
| LinkEditor.RemoveLink | client/src/pages/Home.tsx:92-93 | Exactly the links with another id remain, each with as many copies as before. Removing an absent id changes nothing. |
| LinkEditor.RemoveLinkIsSubsequence | client/src/pages/Home.tsx:93 | The remaining links keep their order. |
| LinkEditor.RemoveLinkUniqueIds | client/src/pages/Home.tsx:93 | Removing links keeps the remaining ids unique. |
| LinkEditor.RemoveLinkKeepsInvariant | client/src/pages/Home.tsx:92-93 | Removing a link keeps the editor invariant. |
| LinkEditor.EditKeepsInvariant | client/src/pages/Home.tsx:52-93 | Every single handler keeps the editor invariant. |
| LinkEditor.EditsKeepInvariant | client/src/pages/Home.tsx:52-93 | Any sequence of handler calls keeps the editor invariant. |
| LinkEditor.ReachableInvariant | client/src/pages/Home.tsx:20-93 | Every list reachable from `DEFAULT_CONFIG` satisfies the editor invariant. |

## Intended behaviour the code does not implement

The panel's stated design asks for four things the code does not do. The model follows the code in each case:

- **Case-sensitive matching.** The design asks for matching after case folding. The code tests `keyword in text` on the raw strings (server/main.py:212).
- **At most one click.** The design asks for one dispatch per matching keyword. The code's `break` stops the scan at the first match, in dict order (server/main.py:234).
- **No validation.** The design asks that a save with duplicate link ids, or a duplicate keyword within one link, be rejected. `update_config` stores whatever it is given (server/main.py:124-139).
- **Several connections per user.** The design wants a new connection to replace and close an account's previous one. The code keeps a list of sockets per user, and connecting never closes an earlier socket (server/main.py:53-57).

## Left out

- Socket I/O (`websocket.accept`, `send_json`, `close(code=4001)`, `receive_bytes`/`receive_text`) is not modelled. Sockets are opaque numbers. Sends are represented by the effects they would have, and a failed send is the `failing` set given to `BroadcastLog`.
- The FunASR relay is not modelled: `websockets.connect`, the byte-forwarding loop and the receive task started with `asyncio.create_task`. This is network I/O and concurrency. One received message is modelled as `ProcessFragment`.
- JSON handling is not modelled: `json.loads` of messages and keyword lists, `json.dumps` of details, and `data.get("text", "")`. The fragment text arrives already decoded, and stored keyword lists are kept as sequences.
- An exception raised while handling a fragment would end the receive loop. The model has no exceptions.
- The SQLAlchemy session, `commit` and the auto-generated row ids and timestamps are not modelled. The tables are sequences of rows, and the audit timestamp is a parameter of `UpdateConfig`.
- The exact wording and timestamps of the broadcast log messages are not modelled. `Effect` records the log kind, the keyword, the link id and the text, not the formatted Chinese message.
- The user lookup of the plugin endpoint is not modelled as a query. It is the `users` set given to `OpenPluginChannel`.
- `keyword_map` is built once when the plugin connects. Later `update_config` calls do not reach an open channel. The model keeps this by returning the map as a value from `OpenPluginChannel`.
- Login and its audit row, token creation, the history, statistics and audit queries, routing, CORS and static files are not modelled. They are not part of the modelled core.
- The React state, toasts, the input-field reset and the mock `handleSave` of Home.tsx are not modelled; they are UI with no effect on the link list.
- Strings are sequences of Unicode scalar values. JavaScript's `trim`, `includes` and `!==` work on UTF-16 code units (client/src/pages/Home.tsx:53, 58, 77), and a Python `str` decoded at server/main.py:197 can hold lone surrogates. The model agrees with the source only on well-formed text.
- LinkEditor.MaxId does not model JavaScript numbers as doubles: ids are unbounded integers, so the `+ 1` never loses precision.
- The server-log writes are not modelled. These are the `logger.info` lines of the four connect and disconnect methods (server/main.py:58, 66, 73, 81) and the `logger.error` of a failed broadcast send (server/main.py:90). They have no effect on the modelled state.
- Connections.ConnectionManager.BroadcastLog describes delivery as a returned list of attempts. It does not model the messages themselves or the time at which they are sent.
- Connections.ConnectionManager.BroadcastLog sends to the user's admin list as it stood when the broadcast began. In the source the loop walks the live list across each `await send_json`. A `disconnect_admin` or `connect_admin` running at one of those awaits can make the loop skip a socket, or also reach a newly added one. The model does not capture that interleaving.
- ConfigStore.Store.GetConfig returns a user's rows in stored order, with the rows of the latest `update_config` last. The source queries without `order_by`, so the database picks the order. That order also decides which link wins a keyword shared by several links in `keyword_map`. The model assumes insertion order.
