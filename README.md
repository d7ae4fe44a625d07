# Cisco IOS network assistant: the tool core, in Dafny

`jupetta/main.py` is an LLM agent that drives a Cisco IOS router through five
tools. The agent calls each tool with one text argument and always gets a
string back. This project models the part below the agent:

- **the version extractor** (`extract_version` with `VERSION_REGEX`), in
  `version.dfy`. It rests on the Python string built-ins it uses (`splitlines`,
  `strip`, `split`, `lower`, `in`), which `text.dfy` writes out;
- **the device parameters** (`load_device_from_env`, `load_device_from_yaml`,
  `get_device`), in `inventory.dfy`. The parsed `devices.yaml` and the
  environment are parameters, so this is pure selection and validation;
- **the netmiko connection**, in `session.dfy`. It is a class `Connection`
  with the client's mode flags and a log of every exchange. Its methods are
  connect, `send_command`, `enable`, `config_mode`, `exit_config_mode` and
  `disconnect`. The router is a `Device` parameter that gives the reply to
  each call, or the exception it raises, knowing the session so far. A pure
  model sits beside the class: `Perform` (straight-line calls inside a `try`),
  `FirstFailure` and `WithBlock` (the shape of a `with ConnectHandler(...)`
  block);
- **the five `_run` methods** (GetVersion, GetRouteTable, GetRouteProtoState,
  Ping, IfaceConfig), in `tools.dfy`. Each is a method on a `Connection`. It is
  proved to answer, and to leave the exchange log, exactly as a specification
  function `XRun(argument, device)` says. The lemmas about those functions
  state what each tool promises;
- **the `tools` list**, in `registry.dfy`: the five tools, their names, and
  what any of them guarantees the agent;
- **a well-behaved IOS router**, in `router.dfy`. Against it, IfaceConfig is
  proved idempotent, as the module docstring promises (`jupetta/main.py:10`).

Where the code and its design description differ, the model follows the code:

- Ping sends `"ping " + target` whatever the target is, the empty string
  included. It does no validation and opens a session regardless.
- IfaceConfig uses `split(maxsplit=1)`. An argument with more than two tokens
  is accepted, and the extra tokens stay in the action, so only the action's
  prefix matters.
- The current-state test is a plain substring test for "shutdown" in the
  whole `show run interface` output. A configuration text that contains
  "no shutdown" therefore reads as shut (`Tools.NoShutdownReadsAsShut`).
- `except ValueError` catches every `ValueError`, not only the unpacking error
  of a malformed argument. A `ValueError` that netmiko raises while connecting
  or configuring also answers the input-format error (`Tools.IfaceErrorText`).
- There is no dispatcher and no "tool not found" error. The registry is only
  the list of tools; looking a tool up by name belongs to the agent library.

## Model

| member | source | states |
|---|---|---|
| Text.SplitLines | jupetta/main.py:87 | `str.splitlines()`: no line holds a line break, and the text has no lines exactly when it is empty |
| Text.SplitLinesKeepsText | jupetta/main.py:87 | joining the lines gives back the text with its line breaks removed: splitting loses nothing else |
| Text.SplitLinesFirstLine | jupetta/main.py:87 | a line ended by `\n` is the first line, and the rest is split on its own |
| Text.Strip | jupetta/main.py:90 | `str.strip()`: the result is the slice of the text between its leading and trailing whitespace; it neither starts nor ends with whitespace, and it is empty exactly when the text is all whitespace |
| Text.SplitOnceAgreesWithWords | jupetta/main.py:186 | `split(maxsplit=1)` has two parts exactly when `split()` has at least two words; the first part is the first word, and the second part starts with a non-space character and splits into the remaining words |
| Text.ContainsAt | jupetta/main.py:88 | `t in s` holds exactly when `t` starts at some index of `s` |
| Text.ContainsAcrossBreak | jupetta/main.py:87-88 | a text without line breaks occurs in `a + breaks + b` exactly when it occurs in `a` or in `b` |
| Text.Words | jupetta/main.py:186 | `str.split()`: every word is non-empty and free of whitespace, and there are no words exactly when the text is all whitespace |
| Text.SplitOnce | jupetta/main.py:186 | `str.split(maxsplit=1)`: at most two parts; none exactly when the text is all whitespace; the first part is a word; a second part is non-empty and starts with a non-space character |
| Text.Lower | jupetta/main.py:122 | `str.lower()`: same length, no upper-case letter left, and a character changes exactly when it is an upper-case letter |
| Text.Contains | jupetta/main.py:88 | `t in s`: the empty text is in every text, and a text found in `s` is no longer than `s` |
| Version.VersionCharsEnd | jupetta/main.py:83 | the maximal run of `[A-Za-z0-9.()]` starting at an index: all its characters are in the class, and the next one is not |
| Version.MatchAt | jupetta/main.py:83 | a match of the regex at an index captures a non-empty run of `[A-Za-z0-9.()]` that ends inside the text, after the keyword and at least one space |
| Version.Search | jupetta/main.py:89 | `VERSION_REGEX.search`: a match found from an index captures a non-empty version token that lies inside the text |
| Version.MatchAtIsRegexMatch | jupetta/main.py:83 | a match of `Version\s+([A-Za-z0-9.()]+)` starts at an index exactly when the regex matches there, and the model's capture is the regex's group 1 |
| Version.SearchIsLeftmost | jupetta/main.py:89 | `re.search`: no match means no index matches, and a match is the one at the leftmost index that matches |
| Version.LineVersionIsRegexCapture | jupetta/main.py:89-90 | on a line that mentions "Version", the answer is the capture of the leftmost regex match, or the whole line stripped when the regex matches nowhere |
| Version.LineVersionIsAnswer | jupetta/main.py:89-90 | the answer for a line that mentions "Version" is never empty and never the sentinel `[Version line not found]` |
| Version.LineVersion | jupetta/main.py:89-90 | the answer for one line is never longer than the line |
| Version.VersionOf | jupetta/main.py:86-91 | `extract_version` never answers the empty string |
| Version.VersionInLines | jupetta/main.py:87-91 | the sentinel is answered exactly when no line contains "Version" |
| Version.ExtractVersion | jupetta/main.py:86-91 | the loop over the lines answers what the specification function `VersionOf` gives |
| Version.VersionIgnoresLaterLines | jupetta/main.py:87-90 | once some line contains "Version", appending more lines never changes the answer |
| Version.VersionAtFirstKeywordLine | jupetta/main.py:87-90 | the answer is decided by the first line that contains "Version" alone |
| Version.VersionOfFirstLine | jupetta/main.py:87-90 | a first line that mentions "Version" decides the answer, whatever follows it |
| Version.KeywordInSomeLine | jupetta/main.py:87-88 | the output contains "Version" exactly when one of its lines does |
| Version.VersionOfOutcomes | jupetta/main.py:86-91 | the extractor answers the sentinel exactly when the output never mentions "Version", and never answers the empty string when it does |
| Version.BannerVersion | jupetta/main.py:83-90 | a one-line banner with no earlier `V`, followed by "Version ", a version token and a non-token character, yields exactly that token |
| Version.CiscoBannerVersion | jupetta/main.py:83-90 | `"Cisco IOS Software, Version 15.2(4)M3, RELEASE SOFTWARE"` gives `"15.2(4)M3"` |
| Inventory.FromEnv | jupetta/main.py:51-57 | the environment record always has exactly the four keys `host`, `username`, `password` and `device_type` |
| Inventory.GetEnv | jupetta/main.py:54-56 | `os.getenv`: a string exactly when the variable is set, and then its value |
| Inventory.FromYaml | jupetta/main.py:60-65 | the file's entry is the first element of a non-empty list and nothing otherwise (no file, an empty document, a document that is not a list, or an empty list) |
| Inventory.Missing | jupetta/main.py:70-71 | the missing keys are exactly the required keys that are absent or falsy |
| Inventory.Select | jupetta/main.py:69 | `load_device_from_yaml() or load_device_from_env()`: the chosen value is truthy; it is the file's first entry when that is truthy, and otherwise the environment record |
| Inventory.Validate | jupetta/main.py:70-74 | accepted parameters hold every required key with a truthy value; a rejection names a non-empty set of missing keys; a value that is not a mapping fails on `.get` |
| Inventory.FileTakesPrecedence | jupetta/main.py:69 | a truthy first entry of the device list decides alone: any two environments give the same outcome |
| Inventory.FalsyEntryFallsBack | jupetta/main.py:60-69 | without a truthy first entry, the outcome is that of the environment alone |
| Inventory.EnvironmentOnly | jupetta/main.py:51-74 | from the environment, the parameters are accepted exactly when DEVICE_HOST, DEVICE_USERNAME and DEVICE_PASSWORD are set and non-empty and DEVICE_TYPE is unset or non-empty; otherwise the error names exactly the failing parameters |
| Inventory.GetDevice | jupetta/main.py:68-74 | accepted parameters are exactly the selected value (the file's truthy first entry, or else the environment record); the AttributeError only happens with a truthy file entry |
| Inventory.DefaultDeviceTypeIsCiscoIos | jupetta/main.py:53 | with DEVICE_TYPE unset, accepted parameters have `device_type` `cisco_ios` |
| Inventory.GetDeviceOutcomes | jupetta/main.py:68-74 | accepted parameters always hold all four keys, truthy; a rejection names at least one required key and no other; the AttributeError happens exactly when the first entry is truthy but not a mapping |
| Session.Calls | jupetta/main.py:104-105 | the calls of a session log, in order, one per exchange |
| Session.Perform | jupetta/main.py:193-197 | straight-line calls make at most one exchange per call, and at least one when there is a call |
| Session.PerformMakesCallsInOrder | jupetta/main.py:193-197 | the calls are made in order, each answered by the device given everything before it; every exchange but the last returned; the run stops early only at an exception |
| Session.FollowingRunIsPerform | jupetta/main.py:193-197 | conversely, any log that follows the calls and stops at the first exception is the one `Perform` makes |
| Session.FirstFailure | jupetta/main.py:107-108 | no failure exactly when every exchange returned; otherwise the failure is that of the first exchange that raised |
| Session.WithBlockCloses | jupetta/main.py:104-106 | a `with ConnectHandler(...)` block leaves the connection closed on every path, the one where connecting raised included |
| Session.Connection.Connect | jupetta/main.py:104 | `ConnectHandler(**DEVICE)`: the device's reply is logged; the connection is open and unprivileged unless connecting raised |
| Session.Connection.SendCommand | jupetta/main.py:105 | `send_command`: the device's reply is logged, and the mode does not change |
| Session.Connection.Enable | jupetta/main.py:193 | `enable()`: the reply is logged, and the session is privileged unless the call raised |
| Session.Connection.ConfigMode | jupetta/main.py:194 | `config_mode()`: the reply is logged, and the session is in configuration mode unless the call raised |
| Session.Connection.ExitConfigMode | jupetta/main.py:197 | `exit_config_mode()`: the reply is logged, and the session is outside configuration mode unless the call raised |
| Session.Connection.Disconnect | jupetta/main.py:104-106 | leaving the `with` block always succeeds and closes the connection |
| Tools.QueryExchangeShape | jupetta/main.py:124-125 | one command in one `with` block: the calls are connect, the command and disconnect, or connect alone when it raised; the reply is the device's answer to the command; the first failure is the reply's |
| Tools.QueryExchange | jupetta/main.py:104-105 | a session starts by connecting, with the device's reply to connect logged first; it is that one exchange when connecting raised and three exchanges otherwise |
| Tools.Query | jupetta/main.py:124-125 | the method makes the exchanges and returns the reply the specification gives, and leaves the connection closed |
| Tools.GetVersion | jupetta/main.py:102-108 | the method answers, and logs, what `GetVersionRun` gives |
| Tools.GetVersionContract | jupetta/main.py:102-108 | GetVersion sends `show version` alone in a session closed on every path, and answers the extracted version or `[ERROR] ` and the first exception's message |
| Tools.GetVersionRun | jupetta/main.py:102-108 | GetVersion always connects first, and a connect that raises answers `[ERROR] ` and its message |
| Tools.RouteTableCommand | jupetta/main.py:122 | the command is `show ip route` or `show ipv6 route`, and `show ipv6 route` exactly for the sixteen case spellings of "ipv6" |
| Tools.GetRouteTable | jupetta/main.py:121-127 | the method answers, and logs, what `GetRouteTableRun` gives |
| Tools.LowerIsIpv6 | jupetta/main.py:122 | the argument lowers to "ipv6" exactly for the sixteen case spellings of "ipv6" |
| Tools.GetRouteTableContract | jupetta/main.py:121-127 | `show ipv6 route` exactly when the lowered argument is "ipv6"; `show ip route` for every other argument, the default included; the output or the error text is answered; the session is closed |
| Tools.GetRouteTableRun | jupetta/main.py:121-127 | GetRouteTable always connects first, and a connect that raises answers the error text |
| Tools.ProtoCommand | jupetta/main.py:140-146 | `_cmd_map.get(proto.lower())`: no command exactly when the lowered argument is neither "bgp" nor "ospf"; a command is a `show ip ` command |
| Tools.GetRouteProtoState | jupetta/main.py:145-153 | the method answers, and logs, what `GetRouteProtoStateRun` gives |
| Tools.GetRouteProtoStateContract | jupetta/main.py:140-153 | no connection and the usage error exactly when the lowered argument is neither "bgp" nor "ospf"; otherwise `show ip bgp summary` or `show ip ospf neighbor` alone; the default is bgp; when nothing fails, the answer is the command's output; the session is closed |
| Tools.GetRouteProtoStateRun | jupetta/main.py:145-153 | no exchange at all exactly when there is no command for the argument; otherwise the session connects first, and a connect that raises answers the error text |
| Tools.PingCommand | jupetta/main.py:169 | the command is `ping ` followed by the target, character for character |
| Tools.Ping | jupetta/main.py:166-171 | the method answers, and logs, what `PingRun` gives |
| Tools.PingContract | jupetta/main.py:166-171 | Ping sends "ping " and the target verbatim, unvalidated, and answers the router's report or the error text; the session is closed |
| Tools.PingRun | jupetta/main.py:166-171 | Ping always connects first, and a connect that raises answers the error text |
| Tools.IfaceConfig | jupetta/main.py:184-202 | the method answers, and logs, what `IfaceConfigRun` gives, and leaves the connection closed |
| Tools.IfaceConfigRun | jupetta/main.py:184-202 | a run that opens no connection answers the input-format error; a run never makes more than eight exchanges |
| Tools.IfaceSession | jupetta/main.py:188-202 | the `with` block connects first and makes at most eight exchanges; a connect that raises is the only exchange and answers its error text |
| Tools.ChangeInterface | jupetta/main.py:188-198 | the `with` block of IfaceConfig answers, and logs, what `IfaceSession` gives |
| Tools.ChangeAndClose | jupetta/main.py:193-198 | after a probe that shows a change is needed, the rest of the `with` block answers, and logs, what `IfaceSession` gives, and closes the connection |
| Tools.ApplyChange | jupetta/main.py:193-197 | enable, config_mode, `interface <iface>`, the desired command and exit_config_mode are made as `Perform` makes them, and the reply to the last call made is returned |
| Tools.ParseIfaceArgContract | jupetta/main.py:186-187 | the argument is rejected exactly when it has fewer than two words; the interface is the first word; the desired state is "shutdown" exactly when the second word lowers to something starting with "shut" |
| Tools.ParseIfaceArg | jupetta/main.py:186-187 | an accepted argument gives a whitespace-free, non-empty interface and a desired state of "shutdown" or "no shutdown" |
| Tools.DesiredState | jupetta/main.py:187 | the desired state is "shutdown" or "no shutdown", and "shutdown" exactly when the action starts with "shut" in any case |
| Tools.AlreadyInState | jupetta/main.py:190 | the interface counts as already in the desired state exactly when "shutdown" occurs somewhere in the configuration text if and only if the desired state is "shutdown" |
| Tools.IfaceErrorText | jupetta/main.py:199-202 | every error answer starts with `[ERROR] `, and a `ValueError` answers the input-format error |
| Tools.FirstWordDecidesPrefix | jupetta/main.py:187 | testing `startswith("shut")` on the lowered rest of the argument is the same as testing it on its first word |
| Tools.AnswerKinds | jupetta/main.py:192-202 | the SKIP, OK and ERROR answers are told apart by their marker |
| Tools.IfaceMalformedOpensNothing | jupetta/main.py:186-200 | an argument of fewer than two words answers the input-format error and opens no connection, and exactly such arguments open none |
| Tools.IfaceSessionShape | jupetta/main.py:188-202 | a well-formed argument gives one `with` block, closed on every path; an exception answers its error text; otherwise the answer is SKIP or OK |
| Tools.AppliedFailure | jupetta/main.py:193-202 | when a configuration call raises, it is the session's first failure |
| Tools.IfaceSkipPath | jupetta/main.py:189-192 | when connect and the probe both return and the configuration already shows the desired state, the answer is SKIP and the calls are connect, the probe and disconnect; conversely, SKIP exactly when the session was connect, `show run interface <iface>` and disconnect, without failure; SKIP only when the configuration already shows the desired state, and the session is never privileged nor in configuration mode |
| Tools.SessionSkipPath | jupetta/main.py:189-192 | the SKIP characterisation of `Tools.IfaceSkipPath`, stated on the `with` block alone |
| Tools.IfaceOkPath | jupetta/main.py:189-198 | OK exactly when, without failure, the calls were connect, the probe, enable, config_mode, `interface <iface>`, the desired command, exit_config_mode and disconnect, in that order; OK only when the configuration did not show the desired state, and configuration mode is left (still privileged) before disconnecting |
| Tools.SessionOkPath | jupetta/main.py:189-198 | the OK characterisation of `Tools.IfaceOkPath`, stated on the `with` block alone |
| Tools.NoShutdownReadsAsShut | jupetta/main.py:190 | a configuration that contains "no shutdown" reads as already shut and never as already up |
| Tools.DesiredStateExamples | jupetta/main.py:187 | "shutdown" and "SHUT" mean shutdown; "noshutdown", "no shutdown" and "" mean no shutdown |
| Registry.RegistryIsComplete | jupetta/main.py:216-222 | no two tools share a name, and the names of the tools in the list are pairwise distinct |
| Registry.ToolList | jupetta/main.py:216-222 | the `tools` list has five entries, holds every tool, and no tool twice |
| Registry.Name | jupetta/main.py:99-179 | each tool's name is a non-empty word of ASCII letters |
| Registry.Invoke | jupetta/main.py:102-202 | only GetRouteProtoState and IfaceConfig can answer without any exchange, and no tool makes more than eight exchanges |
| Registry.InvokeIsSafe | jupetta/main.py:102-202 | for any tool and argument: no connection and an error answer, or one `with` block closed on every path; a failure always comes back as an error answer; only IfaceConfig ever calls enable, config_mode or exit_config_mode |
| Router.RunningConfigShowsState | jupetta/main.py:189-190 | against the IOS router, the substring test reads the interface's state correctly, provided its header line does not mention "shutdown" |
| Router.IfaceConfigIsIdempotent | jupetta/main.py:184-198 | against the IOS router: OK exactly when the interface was not in the desired state, SKIP when it was; afterwards it is in the desired state and no other interface changed; a second run of the same argument answers SKIP and changes nothing |
| Router.SessionIsIdempotent | jupetta/main.py:188-198 | the idempotence of `Router.IfaceConfigIsIdempotent`, stated on the `with` block for a desired state of "shutdown" or "no shutdown" |

## Left out

- The LangChain agent (`hub.pull`, `ChatOpenAI`, `create_react_agent`, `AgentExecutor`, `jupetta/main.py:213-230`). It is a foreign library and LLM behaviour. Choosing a tool by name belongs to it.
- The `_arun` wrappers (e.g. `jupetta/main.py:110-112`). They only run `_run` on an executor thread.
- `load_dotenv` and the `OPENAI_API_KEY` check (`jupetta/main.py:43-46`). They are process start-up I/O.
- Reading `devices.yaml` and `path.exists()` (`jupetta/main.py:61-64`). The parsed document is a parameter, with None for a missing file.
- The argparse command line (`jupetta/main.py:236-245`).
- Netmiko's internals, the network and timing. What the router answers, and which calls raise, is the `Device` parameter. Only `router.dfy` fixes one well-behaved router.
- YAML floats, dates and non-string mapping keys. `Inventory.Yaml` holds null, booleans, integers, strings, lists and string-keyed mappings only.
- Inventory.GetDevice: the error is modelled as the set of missing keys. The order in which the message lists them follows Python's set iteration order, which depends on string hashing.
- Inventory.GetDevice: `DEVICE = get_device()` runs at import time. A rejection aborts the program before any tool exists, and the tools do not take this result as input: their `Device` is any router.
- Text.Lower: ASCII letters only. Two non-ASCII characters lower to text with an ASCII letter in it. The Kelvin sign U+212A lowers to `k`, which none of "ipv6", "bgp", "ospf" and "shut" contains. U+0130 (capital I with dot above) lowers to `i` followed by U+0307 (combining dot above). That `i` is a letter of "ipv6", but the combining dot stays in the result, so the lowered text is never "ipv6" and never starts with "shut". So the comparisons the tools make (`== "ipv6"`, the `bgp`/`ospf` keys, `startswith("shut")`) come out as they would in Python.
- The Japanese text of the SKIP and OK answers is kept as written, but nothing is proved about it beyond the `[SKIP] `, `[OK] ` and `[ERROR] ` markers and the interface name.
- Router.IfaceConfigIsIdempotent: the router in `router.dfy` is one well-behaved IOS device that never fails. The time-of-check to time-of-use race with another client changing the interface between the two runs is not modelled.
- `test/tools.py` is not part of this model. It is a demo script built on a seeded random generator and the wall clock.
