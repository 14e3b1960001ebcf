# switch-cache lookup service: origin server and client

A model of the key/value lookup service of the `cache.p4app` demonstration.
A client sends a request for one integer key. A programmable switch may
answer it from a static table. Otherwise the origin server answers from its
store. The model covers the decision logic of the origin server and the
client; all socket I/O is removed.

- `wrappers.dfy` — `Option` and `Result`, standing for Python's `None` and raised exceptions.
- `numerals.dfy` — `str.split` on one separator character, and `int()` / `str()` on decimal integers. Both server and client use them.
- `protocol.dfy` — the `Request` and `Response` messages as values.
- `server.dfy` — the origin server (`server.py`). `BuildStore` builds the store with a loop that assigns one `k=v` argument at a time, checked against the function `StoreFromArgs`. `Resolve` answers one request. `Serve` runs the serve loop over a finite stream of requests.
- `client.py`'s logic is in `client.dfy`: the argument check, the key parsing, the request, and how the reply is judged and printed. The network round trip is a function parameter `(host, request) -> response`.
- `scenarios.dfy` — client and server together, plus the end-to-end checks of `main.py`. The switch's static table appears only as precedence over the server.

Modelling choices:
- the `valid` flag is the integer 1 or 0 that the server sends, and the client treats any non-zero value as found;
- keys and values are unbounded integers, not unsigned ones;
- a reply with the wrong key ends the client through a failed assertion (`KeyMismatch`).

## Model

| member | source | states |
|---|---|---|
| OriginServer.NoArgumentsStore | cache.p4app/server.py:10 | with no arguments the store is exactly {1: 11, 2: 22} |
| OriginServer.ParseOverride | cache.p4app/server.py:14 | an accepted argument contains exactly one `=` |
| OriginServer.ParseOverrideSides | cache.p4app/server.py:14 | `a=b` (no other `=`) is accepted iff both sides are integers, and yields those two integers |
| OriginServer.SeparatorCountRejected | cache.p4app/server.py:14 | an argument with zero or several `=` is rejected |
| OriginServer.ParseShowOverride | cache.p4app/server.py:14 | every pair written as `k=v` in decimal reads back as (k, v) |
| OriginServer.ParseAll | cache.p4app/server.py:13-14 | all arguments are read iff each one is; the i-th pair is the i-th argument's |
| OriginServer.Overlay | cache.p4app/server.py:13-15 | applying overrides keeps every base key, contains every overridden key, and the last override's value is in place |
| OriginServer.StoreFromArgs | cache.p4app/server.py:10-15 | a store exists iff every argument is well formed, and it then holds keys 1, 2 and every argument's key |
| OriginServer.BuildStore | cache.p4app/server.py:10-15 | the loop that assigns each argument's pair in turn to the initial store yields `StoreFromArgs(args)`: no store if any argument is malformed |
| OriginServer.OverlayLastWins | cache.p4app/server.py:13-15 | an override that no later override shadows determines its key's value (last write wins) |
| OriginServer.OverlayUntouched | cache.p4app/server.py:10-15 | a key no override names keeps its base entry or stays absent |
| OriginServer.OverlayKeys | cache.p4app/server.py:10-15 | the keys are the base keys plus all overridden keys: nothing is ever deleted |
| OriginServer.ArgumentLastWins | cache.p4app/server.py:13-15 | if argument i reads as (k, v) and no later argument names k, the store maps k to v |
| OriginServer.ArgumentUntouched | cache.p4app/server.py:10-15 | a key no argument names keeps its initial entry (1 -> 11, 2 -> 22) or stays absent |
| OriginServer.MalformedArgumentStops | cache.p4app/server.py:13-14 | one malformed argument anywhere means no store is produced |
| OriginServer.Resolve | cache.p4app/server.py:21-35 | the reply echoes the key; valid = 1 with the stored value iff the key is present, valid = 0 with value 0 iff absent |
| OriginServer.Serve | cache.p4app/server.py:18-36 | one reply per request, each the store's answer to that request alone; equal requests get equal replies (the store is not written) |
| Numerals.Split | cache.p4app/server.py:14 | `split('=')` yields one more part than there are separators, no part contains one, and joining the parts gives the input back |
| Numerals.ParseInt | cache.p4app/client.py:13 | `int()` accepts exactly a digit run, optionally after one sign, and yields its value, negated after `-` |
| Numerals.ParseIntLenient | cache.p4app/server.py:14 | leading zeros, a plus sign and minus zero are accepted; empty text, a lone sign and trailing non-digits are not |
| Numerals.ShowIntCanonical | cache.p4app/client.py:34 | the printed value is canonical: a minus sign exactly for negatives and no leading zero except for 0 itself |
| Numerals.ParseShowInt | cache.p4app/client.py:13 | `int()` reads back any integer printed in decimal |
| Client.Prepare | cache.p4app/client.py:8-21 | wrong argument count gives the usage message; otherwise the request for HOST carries exactly the integer KEY denotes, or KEY is rejected |
| Client.Interpret | cache.p4app/client.py:28-36 | a reply is rejected iff its key differs; otherwise found (with its value) iff `valid` is non-zero, not found iff it is zero |
| Client.RenderReadsBack | cache.p4app/client.py:33-36 | the printed line reads back as the found value, and NOTFOUND reads as no integer, so the two never coincide |
| Client.RunClient | cache.p4app/client.py:8-36 | nothing is sent unless the arguments are valid; a mismatched reply prints nothing; a matching one prints the decimal value or NOTFOUND |
| Client.ExitStatus | cache.p4app/client.py:8-10 | status 0 exactly when an answer was printed, and exactly 1 after usage, a bad key or a mismatched reply |
| Client.UsageExits | cache.p4app/client.py:8-10 | without exactly HOST and KEY the client prints the usage message, sends nothing and exits with status 1 |
| Client.Render | cache.p4app/client.py:33-36 | a found value prints as its decimal text, a miss prints NOTFOUND, a mismatch prints nothing |
| Scenarios.MismatchNeverPrinted | cache.p4app/client.py:31 | a reply for another key is rejected whatever its payload |
| Scenarios.LookupAgainstOrigin | cache.p4app/server.py:27-35 | asked directly, the client prints the stored value for a present key and NOTFOUND for an absent one, never a mismatch |
| Scenarios.RepeatedLookup | cache.p4app/server.py:18-36 | the serve loop gives a request that occurs twice in a stream replies that print the same line, the one a direct lookup prints |
| Scenarios.ThroughSwitch | cache.p4app/main.py:28-38 | the switch echoes the key, answers found with the table value for a static-table key, and otherwise passes the origin's reply through |
| Scenarios.LookupThroughSwitch | cache.p4app/main.py:28-38 | through the switch a static-table key prints the table value; other keys print what the origin would |
| Scenarios.DemoArguments | cache.p4app/main.py:43 | the arguments `1=11` and `2=22` read as (1, 11) and (2, 22) |
| Scenarios.DemoStore | cache.p4app/main.py:43 | `server.py 1=11 2=22` serves exactly {1: 11, 2: 22} |
| Scenarios.DemoLookups | cache.p4app/main.py:43-55 | with the store `server.py 1=11 2=22` builds, keys 1, 2, 3, 123 print 11, 22, 33, NOTFOUND through the switch; key 3 prints NOTFOUND at the origin alone |

## Left out

- Sockets, `bind`, `recvfrom`, `sendto` and the client's 2-second timeout are I/O and timing. The network is the parameter of `Client.RunClient`, and a reply that never arrives (an uncaught `socket.timeout`) is not modelled.
- Byte framing (`reqHdr`, `resHdr`) comes from `cache_protocol`, which is not part of this model. Messages are values, and field widths and byte order are not modelled. Because of that, the server's behaviour on an undecodable datagram is not modelled either: in the code, `unpack` raises and ends the serve loop; it does not drop the datagram and continue.
- The serve loop `while True` never terminates. `OriginServer.Serve` runs it over a finite sequence of requests.
- The server's log `print`s are diagnostics only.
- Numerals.ParseInt: accepts an optional sign followed by ASCII digits. Python's `int()` also strips surrounding whitespace, accepts underscores between digits and accepts non-ASCII Unicode decimal digits (such as Arabic-Indic digits); those inputs are rejected here.
- Client.RunClient: the printed line is modelled without its trailing newline.
- `main.py` is left out as a whole: Mininet topology, forwarding-table set-up and process orchestration. Only its assertions appear, as `Scenarios` lemmas.
- The switch (`cache.p4`) is not part of this model. `Scenarios.ThroughSwitch` captures only the precedence of its static table. Register memoization is not modelled. So the second lookup of key 1 (main.py:48) is covered only by `Scenarios.RepeatedLookup`: the origin's serve loop gives a repeated request the same printed answer.
- Python's `assert` vanishes under `python -O`; the model assumes assertions are enabled.
