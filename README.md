# Auto Wi-Fi connector — a Dafny model

`script.py` scans for wireless networks with `netsh`. It tries every password from
`passwords.txt` on every network not yet known to work, and accepts a network once an
internet check passes. After each success it asks the operator whether to continue, stop or
exit.

This project models the deterministic part of that script and proves what it promises. Every
answer the script gets from outside is an input of the model:

- the text `netsh` prints, or the exception it raised;
- the outcome of the ping, DNS and HTTP probes;
- whether the connect request went through;
- the text of the password file;
- what the operator types.

## Modules

- `wrappers.dfy` — `Wrappers`: the `Option` type.
- `text.dfy` — `Text`: the Python string operations the script uses on `seq<char>`. These are
  `p in s`, `s.split(c)`, `s.split(c, 1)[1]` and `s.strip()`. The script never joins strings:
  `Join` is the model's own inverse of `Split`, used only to state the round-trip lemmas.
- `netsh.dfy` — `Netsh`: the two readers of `netsh` output.
  - `get_available_networks` is the method `AvailableNetworks`, with its loop. Its
    specification function is `ScanNames`.
  - `get_current_connection` is the function `CurrentConnection`.
- `prober.dfy` — `Prober`: `check_internet_simple`, the ping, then DNS, then HTTP fallback.
- `attempt.dfy` — `Attempt`: `test_network_with_password` and `wait_for_connection`. Both are
  methods with their loops. The sleeps are returned as durations.
- `controller.dfy` — `Controller`: `scan_and_connect_all`. This covers the password loading, the
  operator's choice, and the three nested loops as methods.
  - The inner loop over passwords is `TryPasswords`.
  - The loop over networks is `TryNetworks`.
  - One pass of `while True` is `TryCycle` followed by `ScanCycle`.
  - The outer loop is `RunCycles`.
  - The preflight checks are in `ScanAndConnectAll`.

A run is described by a `History`: the `Cycle` values in order. Each cycle records four things:
the bookkeeping it started from (`Tally`), the scanned names, the names left to try, and the
attempts (`Trial`) it made. The lemmas about the whole run (`WorkingNoDup`, `NoRetry`,
`CurrentCounts`) are stated over a `History`. `RunCycles` and `ScanAndConnectAll` produce one.

## Model

| member | source | states |
|---|---|---|
| Text.ContainsSpec | script.py:26 | `p in s` holds exactly when `p` occurs as a contiguous run of `s` at some index |
| Text.AfterFirstSpec | script.py:27 | `s.split(':', 1)[1]` is what follows the first colon: `s` is a colon-free prefix, the colon, then the result |
| Text.JoinSplit | script.py:24 | splitting at line breaks loses nothing: joining the pieces gives the text back |
| Text.SplitJoin | script.py:217-218 | joining break-free lines and splitting again gives the same lines |
| Text.TrimStartSpec | script.py:27 | the left trim keeps a suffix that does not start with whitespace, and drops only whitespace |
| Text.TrimEndSpec | script.py:27 | the right trim keeps a prefix that does not end with whitespace, and drops only whitespace |
| Text.StripPadded | script.py:27 | `strip()` keeps a run of the text with no whitespace at either end, and only whitespace surrounds it |
| Text.StripFixed | script.py:218 | a text without whitespace at either end strips to itself |
| Text.StripIdempotent | script.py:218 | stripping twice is stripping once |
| Text.StripPadding | script.py:285 | whitespace around a text does not change what it strips to |
| Netsh.CandidatesSpec | script.py:24-27 | the candidate names are exactly the names after the first colon on the lines that mention `SSID`, not `BSSID`, and have a colon |
| Netsh.NoDupSpec | script.py:28 | the no-duplicate predicate holds exactly when any two positions hold different names |
| Netsh.FirstSeenMembers | script.py:28-29 | the first-seen list has no duplicates and no empty name, and holds exactly the non-empty candidates |
| Netsh.FirstSeenOrder | script.py:28-29 | the first-seen list keeps the names in the order of their first occurrence |
| Netsh.ScanNamesSpec | script.py:17-32 | the scan result has no duplicates and no empty name; it is empty when the command raised; otherwise it holds exactly the non-empty candidates, in first-occurrence order |
| Netsh.AvailableNetworks | script.py:19-30 | the loop that appends each new non-empty name computes the scan result |
| Netsh.FirstQualifyingSpec | script.py:40-44 | there is no name exactly when no line qualifies; otherwise it is the name on the first qualifying line, which may be empty |
| Netsh.CurrentConnectionIsFirstCandidate | script.py:34-46 | the associated network is the first candidate the scan reader would see in the same text, and there is none when there is no candidate |
| Prober.CheckInternet | script.py:48-71 | online exactly when some stage passes; the stages run in order, every stage run before the last failed, the verdict is the last stage's, and a stage is skipped only after an earlier one passed |
| Prober.PingShortCircuits | script.py:51-55 | a ping that prints `Reply from` settles the check: DNS and HTTP do not run |
| Prober.DnsShortCircuits | script.py:59-64 | after a failed ping, a name that resolves settles the check: HTTP does not run |
| Prober.HttpDecides | script.py:66-71 | when ping and DNS fail, all three stages run and the verdict is the status being 200; an exception is offline |
| Attempt.WaitForConnection | script.py:138-145 | at most `timeout` polls; true exactly when one of them reports the target; it stops at the first match and sleeps one second after each miss |
| Attempt.TestNetworkWithPassword | script.py:147-200 | false without a probe when the connect fails or the adapter is not on the target; otherwise 1 to 3 probes, stopping at the first that passes, true exactly when one passes, with the waits 3, 10, 5 and then `5 * n` after failed check `n` < 3 |
| Attempt.BackoffBounded | script.py:194-197 | the backoffs are `5 * n` seconds, there are at most two, and they add up to at most 15 seconds |
| Controller.StripClean | script.py:218 | a break-free line that strips to something non-empty strips to a clean password |
| Controller.CleanLinesSpec | script.py:218 | every loaded password is non-empty, has no surrounding whitespace and no line break, and there are no more than lines |
| Controller.CleanLinesOfClean | script.py:218 | cleaning a list of clean passwords changes nothing |
| Controller.LoadPasswordsRoundTrip | script.py:216-218 | writing clean passwords one per line and loading the text gives the same list back |
| Controller.LoadPasswordsClean | script.py:216-218 | every password loaded from any text is clean |
| Controller.DecideIgnoresPadding | script.py:285-297 | the choice depends only on the stripped answer: whitespace typed around it changes nothing |
| Controller.WithoutSpec | script.py:254 | the names to try are exactly the scanned names that are not working, in scan order, and they have no duplicates when the scan had none |
| Controller.PairsAt | script.py:262-266 | the visiting order is network by network: pair `n * P + j` is network `n` with password `j` |
| Controller.PairsMember | script.py:262-266 | every visited pair is a network to try and a loaded password |
| Controller.TryPasswords | script.py:266-299 | the inner loop tries the passwords in order, numbering the attempts on from the counter; it stops at the first success, and the counter grows by the failures only |
| Controller.FailuresStep | script.py:297-299 | after failed attempts, one more network's attempts fail but perhaps the last, and the failures add up |
| Controller.NetworkStep | script.py:262-303 | after the networks before `n` all failed, the attempts on network `n` either all fail, so the loop goes on, or end in a success, which gives the cycle its final shape |
| Controller.TryNetworks | script.py:262-303 | the network loop follows the visiting order with consecutive numbers; every attempt but the last failed; it stops early only right after a success; the counter grows by the failures |
| Controller.CycleTries | script.py:254-266 | every attempt of a cycle is on a scanned network that was not already working |
| Controller.CycleTallies | script.py:267-299 | a cycle's failures are all its attempts but a winning last one; it adds at most one network, new to the list, to the working list |
| Controller.TryCycle | script.py:242-303 | scanning, skipping the working networks and trying the rest yields a cycle that follows from its starting bookkeeping |
| Controller.ScanCycle | script.py:235-307 | one pass of the outer loop ends the run exactly when the scan found only working networks, or a success was answered with "2" (stop) or "3" (exit); an empty scan or a "continue" goes on; the working list keeps no duplicates |
| Controller.RunCycles | script.py:232-307 | the outer loop produces a history of at most `maxCycles` cycles; every cycle but the last let the run go on; the last ends it for the reason reported |
| Controller.ScanAndConnectAll | script.py:202-307 | nothing is tried without elevation, when the password file cannot be read, or when it holds no password; otherwise the run is a history over the loaded passwords in which every cycle but the last goes on, and the last ends the run because its scan found only working networks, or a success was answered with "stop" or "exit" (or the cycle bound was reached) |
| Controller.CurrentCounts | script.py:232-299 | after any history, the counter is one more than the failed attempts, and the working list is the successful networks in order |
| Controller.WorkingNoDup | script.py:254-269 | the working list never holds a name twice |
| Controller.WorkingGrows | script.py:269 | the working list only grows: an earlier one is a prefix of a later one |
| Controller.NoRetry | script.py:254-269 | a network found working is never tried again in a later cycle |

## Left out

- Running `netsh`, `ping`, the DNS lookup and the HTTP request is external I/O. Their outcomes are inputs: the command's text or an exception, whether the name resolves, and the status code or an exception.
- The `ping` timeout and the HTTP timeout are not modelled. A timeout is one more way for that stage to fail.
- `connect_to_wifi` and `disconnect_wifi` are external I/O. The connect outcome is an input. A disconnect failure changes nothing the script looks at.
- The WLAN profile XML template and its temporary file only feed text to an external tool.
- `is_admin` is a foreign Windows call. The model takes it as a boolean.
- Reading `passwords.txt` is modelled by its text, or by an exception. Appending to `working_networks.txt` is left out: the script never reads that file back.
- Python's universal-newline reading of the password file is left out: the file text is split at `\n` only. A `\r\n` ending is harmless, because `strip()` removes the `\r`. A lone `\r` is not: Python ends a line there, so `"a\rb"` loads two passwords, while `LoadPasswords` loads the single password `"a\rb"`.
- The progress messages, the final summary, and the "Press Enter" prompts are output only. The one prompt whose answer matters, the 1/2/3 choice, is an input of the model.
- `main` is left out. It repeats the elevation check, creates a sample password file, and catches the keyboard interrupt. The top-level exception wrapper is left out too.
- The sleeps inside `disconnect_wifi` and `connect_to_wifi` are not recorded. The sleeps of `test_network_with_password` and `wait_for_connection` are returned as durations. The 10- and 15-second sleeps of the outer loop are dropped: they change no state.
- Controller.RunCycles: `while True` may run forever when the scans keep reporting failing networks. The model stops after `maxCycles` cycles and reports `OutOfCycles`.
- Controller.ScanCycle: the source asks the operator inside the password loop, right after the success. The model asks after the network loop has returned. This is the same behaviour: a success always ends the cycle at script.py:297 and 302-303, and no attempt comes between.
- Attempt.WaitForConnection is modelled although the script never calls it. `test_network_with_password` checks the association once, after a fixed 10-second sleep, and the model follows that code.
- The source's own comment at script.py:297 says "continue" goes on with the next network. The code instead breaks out of the network loop too, and rescans (script.py:302-303). The model follows the code.
