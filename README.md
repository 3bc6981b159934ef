# RemoteHub power-command core, in Dafny

RemoteHub is a small web application for powering remote PCs on and off. Its
server takes power actions from a phone or browser and turns them into
`shutdown` or `net rpc shutdown` commands. Its React client polls device
reachability and shows devices by group. This project models the two parts of
it that make decisions, and proves properties about them:

- **Server** (`server/server.js`), as pure functions:
  - The `/api/command` handler. It checks the action and picks the target
    address (`127.0.0.1` when none is given). It decides on one of three
    paths: a local command, a Windows-to-Windows `shutdown /m` command, or a
    `net rpc` command from a non-Windows host, which needs credentials. On a
    Windows host with a remote target and stored credentials, it runs a
    `net use` session command first.
  - The classifier that turns a failed command's error text into a user
    message.
  - The bearer-token step of `authenticateToken`.
- **Client** (`client/src/App.jsx`):
  - `refreshStatuses`. A loop method builds the status table and collects the
    transition notices. A `StatusBoard` class holds the device list and the
    previous-status table that a refresh replaces.
  - The `groupedDevices` reduce, as a loop method over an accumulator map.
  - The timer countdown, the password-match check and the theme toggle, as
    functions.

Modules: `Wrappers` (Option, `Array.prototype.find`), `Text` (the JavaScript
string operations used: `toLowerCase`, `includes`, `split`, `trim`),
`PowerCommand`, `BearerAuth` and `Dashboard`.

Process execution, the HTTP exchange, the database and the browser are left
out. Their results become parameters instead:
- the outcome of the power command's `exec`;
- the registry's device rows, or `None` when reading them failed;
- `isWin`, the host platform;
- the JSON Web Token verifier, as a function;
- the status reply, or `None` when the request failed.

Three behaviours of the code, which the model keeps:
- Aborting over the `net rpc` path is not refused with a "not supported"
  error. The code builds `net rpc shutdown … -t 10 -C "RemotePC-Controller"`
  with an empty flag.
- The path is chosen from the host platform and the target address alone. The
  target is always assumed to be a Windows machine.
- The `net use` session step runs only on a Windows host. It is never run
  before a `net rpc` command.

## Model

| member | source | states |
|---|---|---|
| `Wrappers.FindFirst` | server/server.js:116 | `find` gives None exactly when no element matches, and otherwise the element at the first matching index |
| `Text.Lower` | server/server.js:153 | lower-casing keeps the length and maps each character on its own (ASCII letters only) |
| `Text.ContainsIffOccurs` | server/server.js:155-159 | the left-to-right scan used for `includes` is true exactly when the pattern occurs at some index |
| `Text.ContainsInfix` | server/server.js:155-159 | a string always contains any piece it was built from |
| `Text.Split` | server/server.js:26 | `split` gives at least one piece, and no piece contains the separator |
| `Text.JoinSplit` | server/server.js:26 | joining the pieces with the separator gives back the original string |
| `Text.SplitNoSep` | server/server.js:26 | a string without the separator splits into itself alone |
| `Text.SplitAfterPiece` | server/server.js:26 | a leading piece without the separator comes out as the first piece |
| `Text.TrimEmptyIff` | client/src/App.jsx:365 | `trim()` gives the empty string exactly when every character is ECMAScript white space or a line terminator |
| `PowerCommand.TargetIp` | server/server.js:108 | a missing or empty ip becomes `127.0.0.1`; any other ip is kept |
| `PowerCommand.IsLocal` | server/server.js:109 | no contract; a target is local when it is `127.0.0.1` or `localhost`. Its use is specified by `LocalNeedsNoCredentials` and `Resolve` |
| `PowerCommand.FindDevice` | server/server.js:116 | no record is found exactly when no record has the id; otherwise the record found is the first one with that id |
| `PowerCommand.LookupCredentials` | server/server.js:112-123 | credentials exist exactly when a non-zero device id is given, the registry read succeeded, the first device with that id exists and both its user and password are non-empty; they are then that device's user and password |
| `PowerCommand.Flag` | server/server.js:128-131 | `/s`/`-s` for shutdown, `/r`/`-r` for restart, `/a`/empty for abort (Windows/other), none for any other action |
| `PowerCommand.LocalCommand` | server/server.js:134 | no contract; the local `shutdown` template, specified by `LocalCommandShape` |
| `PowerCommand.WindowsRemoteCommand` | server/server.js:138 | no contract; the `shutdown /m` template, specified by `WindowsRemoteCommandShape` and `WindowsRemoteAbortIsBare` |
| `PowerCommand.NetRpcCommand` | server/server.js:144 | no contract; the `net rpc shutdown` template, specified by `NetRpcCommandShape` |
| `PowerCommand.SessionCommand` | server/server.js:170 | no contract; the `net use` template, which `Resolve` and `Handle` state is the session step |
| `PowerCommand.Resolve` | server/server.js:106-146 | InvalidAction exactly for an unknown action. MissingCredentials exactly for a valid action with a remote target, a non-Windows host and no credentials. The session step exists exactly when the host is Windows, the target is remote and credentials exist, and it is then the `net use` command for that target. The command is the local command for a local target, the `shutdown /m` command on a Windows host, and the `net rpc` command with the credentials otherwise, each built from the action's flag |
| `PowerCommand.InvalidActionWins` | server/server.js:128-131 | an unknown action is refused whatever the ip, platform or credentials |
| `PowerCommand.LocalNeedsNoCredentials` | server/server.js:133-134 | a local target always resolves, to the local command, with no session step, whatever credentials are stored |
| `PowerCommand.WindowsRemoteAbortIsBare` | server/server.js:138 | a remote abort from a Windows host is exactly `shutdown /m \\<ip> /a` |
| `PowerCommand.LocalCommandShape` | server/server.js:134 | the local command carries ` /t 10 ` and the quoted tag |
| `PowerCommand.WindowsRemoteCommandShape` | server/server.js:138 | the Windows remote command names the target and, except for abort, carries ` /t 10 ` and the quoted tag |
| `PowerCommand.NetRpcCommandShape` | server/server.js:144 | the `net rpc` command names the target and carries ` -t 10 ` and the quoted tag |
| `PowerCommand.CommandShape` | server/server.js:133-146 | every resolved command except the Windows remote abort carries the 10-second delay and the tag, and every remote command names the target |
| `PowerCommand.FirstMatch` | server/server.js:152-161 | the message of the first table row with a matching pattern, or the default when no row matches |
| `PowerCommand.Classify` | server/server.js:152-161 | the message is always one of the three specific messages or the default; which one is specified by `ClassifyPriority` and `ClassifyIff` |
| `PowerCommand.ClassifyPriority` | server/server.js:152-161 | on the lower-cased stderr+message: access denied beats unreachable, which beats tool missing, which beats the default |
| `PowerCommand.ClassifyIff` | server/server.js:155-161 | each specific message is given exactly when its row matches and no earlier row does |
| `PowerCommand.NotFoundRowIsOnePattern` | server/server.js:159 | the third row matches exactly when the text contains "not found"; its second pattern adds nothing |
| `PowerCommand.Handle` | server/server.js:148-177 | a rejected request runs nothing and replies 400 with its message and no details. Otherwise the power command runs last and is preceded by the `net use` step exactly on Windows with a remote target and credentials, whatever that step's outcome. The step run first is the `net use` command for that target and those credentials. Success replies 200 naming the target; failure replies 500 with the classified message and stderr, or else the error message, as details |
| `BearerAuth.ExtractToken` | server/server.js:25-28 | a token, when there is one, is non-empty and has no space; no header gives no token |
| `BearerAuth.Authenticate` | server/server.js:24-35 | no token means 401; a token the verifier rejects means 403; a token the verifier accepts is authorized with exactly the claims the verifier returned for it |
| `BearerAuth.MissingTokenIgnoresVerifier` | server/server.js:28-31 | without a token the answer is 401 whatever the verifier would say |
| `BearerAuth.SecondPieceIsToken` | server/server.js:26 | from `<scheme> <token>`, with or without further words after it, the token is extracted |
| `BearerAuth.NoSpaceNoToken` | server/server.js:26-28 | a header with no space has no token |
| `BearerAuth.TrailingSpaceNoToken` | server/server.js:26-28 | a scheme followed by a single space and nothing else has no token |
| `BearerAuth.DoubleSpaceNoToken` | server/server.js:26-28 | two spaces after the scheme leave an empty second piece, so no token |
| `Dashboard.StatusMapOf` | client/src/App.jsx:108-110 | no contract; the status table the `forEach` fills, specified by `StatusMapLastWins` |
| `Dashboard.StatusMapLastWins` | client/src/App.jsx:108-110 | the status table holds exactly the ids of the reply, each with the value of its last entry |
| `Dashboard.NoticeFor` | client/src/App.jsx:113-115 | a notice exists exactly when the previous table holds the id with a different value and a device with that id is known; it carries the new state and the name of the first device with that id |
| `Dashboard.Notices` | client/src/App.jsx:109-124 | no contract; the notices of a reply, specified by `NoticesAreTransitions`, `NoticesCount`, `NoticesPrefix` and `NoticeInPlace` |
| `Dashboard.NoticesAreTransitions` | client/src/App.jsx:109-124 | every notice of a refresh comes from an entry that differs from the previous table |
| `Dashboard.NoticesCount` | client/src/App.jsx:109-124 | there are as many notices as reply entries that are transitions of known devices |
| `Dashboard.NoticesPrefix` | client/src/App.jsx:109-124 | the notices of the first entries of a reply are a prefix of the notices of the whole reply |
| `Dashboard.NoticeInPlace` | client/src/App.jsx:109-124 | every entry that is a transition of a known device contributes its notice, right after the notices of the entries before it |
| `Dashboard.FirstObservationSilent` | client/src/App.jsx:113 | entries whose ids the previous table lacks give no notice, so the first refresh gives none |
| `Dashboard.OneOfflineNotice` | client/src/App.jsx:109-124 | previous `{1: true}` with reply `[1 offline, 2 online]` gives exactly one offline notice for device 1 |
| `Dashboard.MergeOnline` | client/src/App.jsx:128-131 | the merge keeps length and order, changes only `isOnline`, and sets it to the table's value or false |
| `Dashboard.MergeOnlineKeepsList` | client/src/App.jsx:128-131 | ids, names, addresses, MACs and groups are unchanged, and merging twice equals merging once |
| `Dashboard.LastIndexOf` | client/src/App.jsx:110 | the index of the last reply entry with a given id |
| `Dashboard.MergeShowsLastProbe` | client/src/App.jsx:108-131 | after a refresh a device shows online exactly when the last reply entry for its id said online |
| `Dashboard.BuildStatusMap` | client/src/App.jsx:108-125 | the `forEach` loop builds exactly the last-entry-wins table and the notices compared against the previous table |
| `Dashboard.StatusBoard.constructor` | client/src/App.jsx:13-26 | a board starts with the given devices and an empty previous-status table |
| `Dashboard.StatusBoard.RefreshStatuses` | client/src/App.jsx:100-135 | with no devices, or a failed request, nothing changes and nothing is notified. Otherwise the previous-status table becomes the new status table, so ids absent from the reply are dropped; the devices are merged with it; the notices are computed against the old table |
| `Dashboard.GroupKey` | client/src/App.jsx:365 | the group name, unchanged, when it has a non-white-space character; otherwise `Geral` |
| `Dashboard.Filter` | client/src/App.jsx:364-369 | no contract; the reference definition of a group, specified by `FilterMembership` and `FilterAppend` |
| `Dashboard.FilterAppend` | client/src/App.jsx:366-367 | adding a device extends exactly the group of its key, at the end |
| `Dashboard.FilterMembership` | client/src/App.jsx:364-369 | a device is in a group exactly when it is in the input and has that group's key |
| `Dashboard.GroupSizesTotal` | client/src/App.jsx:364-369 | groups over distinct keys that cover every device hold, together, exactly as many devices as the input |
| `Dashboard.GroupDevices` | client/src/App.jsx:364-369 | the reduce fails exactly when some device's group key is the name of a property inherited from `Object.prototype` (such as `constructor` or `toString`), for which `acc[group]` is truthy and `push` throws a TypeError. Otherwise the keys are exactly the inputs' group keys, each created once. Each group is the input's devices with that key, in input order, and is never empty. The group sizes add up to the input length |
| `Dashboard.RemainingMinutes` | client/src/App.jsx:607 | the countdown is never negative, is 0 exactly once expired, and otherwise is the whole number of minutes m with (m-1) min < remaining time <= m min |
| `Dashboard.RemainingNonIncreasing` | client/src/App.jsx:607 | the countdown never increases as the current time grows |
| `Dashboard.CheckPasswordChange` | client/src/App.jsx:313-318 | mismatched passwords give the error and no request; matching ones give a request with the new password |
| `Dashboard.ToggleTheme` | client/src/App.jsx:335 | the result is `light` exactly when the theme was `dark`, and `dark` otherwise |
| `Dashboard.ToggleThemeTwice` | client/src/App.jsx:335 | toggling twice restores `dark` or `light`; any other stored value ends as `light` |

## Left out

- Process execution (`exec`), `ping`, Wake-on-LAN (`wol.wake`), bcrypt and JWT signing and verification are foreign calls. The outcome of `exec` is a parameter of `PowerCommand.Handle`. The JWT verifier is a function parameter of `BearerAuth.Authenticate`.
- The outcome of the `net use` step is not an input: the handler runs the power command whatever it was. Its log line is left out.
- Express routing, the login, device CRUD, `/api/devices/status` and `/api/wol` handlers, and `server/database.js` are request plumbing and persistence. The registry read is the `devices` parameter of `PowerCommand.LookupCredentials`, and `None` stands for a failed read.
- The scheduler (`/api/timer`) and the group command (`/api/command/group`) are called by the client, but `server/server.js` does not define them. They are not part of this model. The same holds for the device-update, log and profile endpoints.
- Shell quoting: credentials and the ip are concatenated into the command text as they are, and the model does the same.
- React rendering, `useEffect`/`setInterval` polling, axios, `localStorage` and the `Notification` API are browser effects. The status request itself is left out; its reply is the `reply` parameter of `Dashboard.StatusBoard.RefreshStatuses`.
- Dashboard.NoticeFor: the check `Notification.permission === "granted"` and the notification's text and icon are not modelled. A notice stands for "a notification is shown if permitted". The first device with the id gives the name, as `find` does.
- Dashboard.GroupDevices: `order` is the order in which the accumulator's keys were created. The contract does not state that order. It also does not model that `Object.entries` lists integer-like group names first. When the reduce throws, the contract says nothing of the partial accumulator, since the render is aborted.
- Text.Lower: only ASCII letters are lower-cased. All of the classifier's patterns are ASCII. A Unicode mapping onto an ASCII letter, such as the Kelvin sign onto `k`, is not modelled.
- Dashboard.RemainingMinutes: timestamps are whole milliseconds. JavaScript's floating-point numbers and `-0` are not modelled.
- Device ids are integers. JavaScript turns object keys into strings; with numeric ids this makes no difference.
- Values of the wrong JavaScript type (a non-string `action` or `ip`, a string device id) are not modelled. A missing value is `None`. An empty string, or a zero device id, counts as falsy.
- Dashboard.StatusBoard.RefreshStatuses: the model assumes that reading `Notification.permission` and calling `new Notification` do not throw. In the code either can throw: line 117 lacks the `"Notification" in window` guard, and the constructor can be refused. A throw stops the `forEach`, and the `catch` then skips both the table update and the merge.
- The stale-closure timing of `refreshStatuses` under `setInterval` is React scheduling, not logic.
