# Inventory agent: virtualization detection and interface addresses

A verified Dafny model of the two pieces of logic in the inventory agent
that decide something:

- **Virtualization detection** (`app/system_info/virtualization_discover.py`).
  The command runner `check_command` runs a command and returns its
  whitespace-stripped output, or None. The service check `check_service`
  asks `systemctl is-active`. Five probes (`check_docker`, `check_proxmox`,
  `check_lxc`, `check_qemu`, `check_kvm`) build on these two. The aggregator
  `check_virtualization` runs every probe in its own `try` block and
  collects the names of the layers found.
- **Interface address listings** (`app/system_info/system_info.py`).
  `get_ipv4_addresses` and `get_ipv6_addresses` map every network interface
  to its `AF_INET` or `AF_INET6` addresses.

The host is an input value. In `Virtualization`, a `Host` maps each command
line to an `Outcome`:

- `Exit0(stdout)`: exit status 0, with the decoded output.
- `NonZero`: the command fails, so `CalledProcessError` is raised.
- `NotFound`: the executable is missing, so `FileNotFoundError` is raised.
  A command line absent from the map reads the same way.
- `Fault`: any other exception derived from `Exception`. Neither helper catches these, so they reach
  the aggregator. Examples are a `PermissionError` and output that does not
  decode.

Each helper and probe returns `Py<T>`, which is either `Ok(value)` or
`Raised`. This is how the aggregator's failure isolation is stated. In
`SystemInfo`, the interface enumeration is a sequence of
`(interface name, addresses)` pairs in the order the enumeration yields them.

Files:

- `pytext.dfy` (module `PyText`): Python's `str.isspace` and `str.strip()`.
- `virtualization.dfy` (module `Virtualization`): the runner, the service
  check, the probes, the aggregator and their properties.
- `system_info.dfy` (module `SystemInfo`): the address listings.

Three facts about the code that the model follows:

- `check_virtualization` returns a list in probe order.
- `check_service` never uses the result of its comparison with `'active'`.
  The comparison is only logged, and exit status 0 alone means "active".
- The address listings return a dict keyed by interface, although their
  annotation and docstring promise a flat list.

The two address listings repeat one nested loop with a different family
constant. The model writes that loop once, as `SystemInfo.CollectAddresses`,
and both `GetIpv4Addresses` and `GetIpv6Addresses` call it.

## Model

| member | source | states |
|---|---|---|
| `PyText.IsSpace` | app/system_info/virtualization_discover.py:21 | the characters Python 3's `str.isspace` counts as whitespace, which `strip()` removes: TAB to CR, FS to US, the space, NEL, NO-BREAK SPACE, the Unicode space separators, and the line and paragraph separators |
| `PyText.Strip` | app/system_info/virtualization_discover.py:21 | the argument-less `.strip()` the runner applies to decoded stdout: leading whitespace is dropped, then trailing whitespace |
| `PyText.StripLeftSpec` | app/system_info/virtualization_discover.py:21 | leading-whitespace removal keeps the longest suffix that does not start with whitespace, and only whitespace is dropped |
| `PyText.StripRightSpec` | app/system_info/virtualization_discover.py:21 | trailing-whitespace removal keeps the longest prefix that does not end with whitespace, and only whitespace is dropped |
| `PyText.StripSpec` | app/system_info/virtualization_discover.py:21 | `strip()` yields a slice of the output with only whitespace around it, and the slice neither starts nor ends with whitespace |
| `PyText.StripEmptyIff` | app/system_info/virtualization_discover.py:21 | the stripped output is empty exactly when the output holds only whitespace |
| `PyText.StripIdempotent` | app/system_info/virtualization_discover.py:21 | stripping twice gives the same result as stripping once |
| `Virtualization.CheckCommand` | app/system_info/virtualization_discover.py:19-27 | exit 0 gives the stripped stdout; a non-zero exit or a missing executable gives None and does not raise; it raises only on other faults |
| `Virtualization.CheckService` | app/system_info/virtualization_discover.py:39-47 | True exactly when `systemctl is-active <name>` exits 0; False on a non-zero exit or a missing systemctl; it raises only on other faults |
| `Virtualization.ServiceIgnoresStdout` | app/system_info/virtualization_discover.py:40-42 | the text systemctl prints never changes the answer; a service that prints "inactive" with exit 0 still counts as active |
| `Virtualization.Truthy` | app/system_info/virtualization_discover.py:58 | the `if <version>:` test at lines 58, 79, 100, 121 and 137: None and the empty string are false, and every other string is true |
| `Virtualization.TruthyIffInstalled` | app/system_info/virtualization_discover.py:57-58 | the runner's result is truthy exactly when the command exits 0 with non-whitespace output; None, empty and blank output read as "not installed" |
| `Virtualization.DetectWithService` | app/system_info/virtualization_discover.py:57-68 | True iff the detection command prints visible text and the service is active; it raises iff the detection raises, or detection succeeds and the service check raises |
| `Virtualization.DetectOnly` | app/system_info/virtualization_discover.py:120-126 | True iff the detection command prints visible text; it raises iff the detection raises |
| `Virtualization.CheckDocker` | app/system_info/virtualization_discover.py:49-68 | True iff `docker --version` prints visible text and the `docker` service is active; when not installed and no fault occurs, False; it raises iff `docker --version` faults, or it is installed and the service check faults, so an installed docker whose service exits non-zero or has no systemctl gives False |
| `Virtualization.CheckProxmox` | app/system_info/virtualization_discover.py:70-89 | True iff `pveversion` prints visible text and `pvedaemon` is active; when not installed and no fault occurs, False; it raises iff `pveversion` faults, or it is installed and the service check faults, so an inactive `pvedaemon` or a missing systemctl gives False |
| `Virtualization.CheckLxc` | app/system_info/virtualization_discover.py:91-110 | True iff `lxc-checkconfig` prints visible text and `lxc` is active; when not installed and no fault occurs, False; it raises iff `lxc-checkconfig` faults, or it is installed and the service check faults, so an inactive `lxc` service or a missing systemctl gives False |
| `Virtualization.CheckQemu` | app/system_info/virtualization_discover.py:112-126 | True iff `qemu-system-x86_64 --version` prints visible text; no service is consulted |
| `Virtualization.CheckKvm` | app/system_info/virtualization_discover.py:128-142 | True iff `kvm --version` prints visible text; no service is consulted |
| `Virtualization.ProbeDecisionTable` | app/system_info/virtualization_discover.py:49-142 | for every layer, True iff its detection command prints visible text and, where it has one, its service is active; a layer without a detection fault that is not installed gives False; the probe raises iff its detection command faults, or the layer is installed, has a service and the service check faults |
| `Virtualization.UninstalledIgnoresService` | app/system_info/virtualization_discover.py:66-68 | when a layer is not installed, no outcome of its service check can make the probe True |
| `Virtualization.OtherProbeUnaffected` | app/system_info/virtualization_discover.py:57-136 | the probes use disjoint command lines: changing one layer's detection command changes no other probe's result |
| `Virtualization.ProbeResultsInOrder` | app/system_info/virtualization_discover.py:158-186 | the aggregator consults the five probes in the fixed order docker, proxmox, lxc, qemu, kvm, each paired with the name it appends |
| `Virtualization.ReportFive` | app/system_info/virtualization_discover.py:157-188 | five guarded probes in a row append their contributions one after another |
| `Virtualization.CheckVirtualization` | app/system_info/virtualization_discover.py:157-188 | the returned list is the report of the five guarded probes, and a layer's name is in it iff that layer's probe returned True |
| `Virtualization.ReportIsSubsequence` | app/system_info/virtualization_discover.py:157-188 | a report keeps its probes' order: it is a subsequence of their names |
| `Virtualization.DetectedInVocabularyOrder` | app/system_info/virtualization_discover.py:157-188 | the result is a subsequence of `["docker","proxmox","lxc","qemu","kvm"]` |
| `Virtualization.ReportMembership` | app/system_info/virtualization_discover.py:158-186 | a name is in a report iff some probe with that name returned True |
| `Virtualization.DetectedMembership` | app/system_info/virtualization_discover.py:158-186 | a layer's name is in the result iff its probe returned True; a probe that raised contributes nothing; nothing outside the vocabulary appears |
| `Virtualization.ReportNoDuplicates` | app/system_info/virtualization_discover.py:157-188 | probes with distinct names give a report without repetitions |
| `Virtualization.DetectedNoDuplicates` | app/system_info/virtualization_discover.py:157-188 | no name appears twice in the result |
| `Virtualization.ReportEmptyIff` | app/system_info/virtualization_discover.py:157-188 | a report is empty exactly when no probe returned True |
| `Virtualization.NothingInstalledReportsNothing` | app/system_info/virtualization_discover.py:157-188 | when no detection command exits 0, whether it fails, is missing or faults, the result is the empty list |
| `Virtualization.ReportCongruent` | app/system_info/virtualization_discover.py:158-186 | two runs whose probes agree on which returned True give the same report |
| `Virtualization.RaisingProbeIsIsolated` | app/system_info/virtualization_discover.py:158-186 | a probe whose detection command raises leaves the result exactly as if that layer's executable were missing; every other layer is reported as it would be otherwise |
| `Virtualization.RaisingServiceCheckIsIsolated` | app/system_info/virtualization_discover.py:158-186 | a probe whose service check raises leaves the result exactly as if `systemctl is-active` had exited non-zero for that service; every other layer is reported as it would be otherwise |
| `Virtualization.OtherServiceUnaffected` | app/system_info/virtualization_discover.py:57-107 | the three services are distinct and no detection command runs systemctl, so changing one layer's service check changes no other probe's result |
| `SystemInfo.CollectAddresses` | app/system_info/system_info.py:29-35 | the nested loop builds exactly the per-interface map of one family's addresses |
| `SystemInfo.GetIpv4Addresses` | app/system_info/system_info.py:22-35 | a map with one key per enumerated interface; each key is bound to that interface's `AF_INET` addresses in enumeration order |
| `SystemInfo.GetIpv6Addresses` | app/system_info/system_info.py:37-50 | a map with one key per enumerated interface; each key is bound to that interface's `AF_INET6` addresses in enumeration order |
| `SystemInfo.PerInterfaceKeys` | app/system_info/system_info.py:30-31 | the keys are exactly the enumerated interface names, including interfaces without an address of the family |
| `SystemInfo.PerInterfaceValues` | app/system_info/system_info.py:30-34 | each interface is bound to the addresses of the family from its own enumerated entry; with a repeated name, the last entry wins |
| `SystemInfo.OfFamilyAppend` | app/system_info/system_info.py:32-34 | the listing distributes over concatenation, so the original order is kept |
| `SystemInfo.OfFamilySingle` | app/system_info/system_info.py:33-34 | a single entry is listed iff it has the family |
| `SystemInfo.OfFamilyLength` | app/system_info/system_info.py:32-34 | an interface's list is never longer than its enumerated addresses |
| `SystemInfo.OfFamilyMembership` | app/system_info/system_info.py:32-34 | an address is listed iff the interface has an entry of the family with that address |
| `SystemInfo.OtherFamilyIgnored` | app/system_info/system_info.py:33 | removing an entry of another family leaves the listing unchanged |
| `SystemInfo.OfFamilyNone` | app/system_info/system_info.py:31-34 | an interface with no address of the family is bound to the empty list |
| `SystemInfo.ListingsPartition` | app/system_info/system_info.py:32-34 | the `AF_INET`, `AF_INET6` and `AF_LINK` listings of an interface together hold exactly as many addresses as it has entries, so no entry is listed twice or lost |

## Left out

- Running processes, `systemctl` and the psutil enumeration are foreign
  calls. They appear only as input values: a `Host` and an `Interfaces`
  sequence.
- Byte decoding of captured output: stdout is modelled as already-decoded
  text. A decoding failure is one of the faults covered by `Fault`.
- Logging: every `logger.debug` call, including the evaluated comparison
  with `'active'`, and the module-level `setup_logging()` call.
  `app/utils/logger_config.py` is not part of this model.
- `get_system_info`: it queries the platform and then calls both address
  listings. Line 16 of `app/system_info/system_info.py` references the
  undefined name `plateform`. That raises `NameError` before the listings
  are called, so the function never returns.
- The reporter and HTTP clients (`app/main.py`, `main.py`), the public-IP
  lookup, the daily scheduler loop and environment-variable configuration.
  These are network I/O, time and process plumbing.
- The older root-level draft `virtualization_discover.py`, which the
  `app/` version supersedes.
- The insertion order of the dict the address listings return. Dafny maps
  are unordered, so only the keys and each key's ordered list are modelled.
- Timeouts: `subprocess.run` at `virtualization_discover.py` lines 20 and
  40 has no `timeout`, so a command that never exits blocks
  `check_virtualization` forever. A `Host` gives every command line an
  outcome, so the model assumes that every command terminates. The
  isolation properties (`DetectedMembership`, `RaisingProbeIsIsolated`,
  `RaisingServiceCheckIsIsolated`) hold only under that assumption.
- Exceptions outside `Exception`: the aggregator's `except Exception`
  (lines 161, 167, 173, 179 and 185) does not catch `KeyboardInterrupt`,
  `SystemExit` or another `BaseException`, so those escape
  `check_virtualization`. `Fault` covers only exceptions derived from
  `Exception`, and the model always swallows it.
- The netmask, broadcast and point-to-point fields of enumerated addresses,
  which the listings never read.
