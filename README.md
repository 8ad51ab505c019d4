# OMAPI shell wrapper and commissioning reconciliation, in Dafny

This project models two parts of MAAS, the bare-metal provisioning service.

**The omshell wrapper** (`src/provisioningserver/dhcp/omshell.py`). MAAS edits the DHCP
daemon's host maps and leases by piping fixed scripts into the `omshell` tool and reading
its output. The model covers:

- the bad-key pattern;
- the loop that runs `dnssec-keygen` until it gives a key omshell can read;
- the `Omshell` class: its constructor, which picks port 7911 or 7912, and `try_connection`,
  `create`, `modify`, `remove` and `nullify_lease`.

Each operation is built the same way:

- the script as a list of commands, and the standard input that renders it;
- a classification of omshell's output;
- a class method that runs a process and raises `ExternalProcessError` when that
  classification rejects the output.

omshell is a parameter: a function from standard input to exit status and output.
`dnssec-keygen` is a finite list of runs, each with an exit status, an output and the key
files it writes. The key-file parser is modelled by its result.

**The commissioning hooks**, as `src/metadataserver/models/tests/test_commissioningscript.py`
states their behaviour. Each hook works on a `Store` class holding the nodes and the
physical interfaces:

- `update_hardware_details` sets a node's CPU count and memory from an lshw tree;
- `update_node_physical_block_devices` reconciles a node's block devices with the storage
  report;
- `update_node_network_information` reconciles the physical interfaces with the reported
  (name, MAC) pairs.

Each hook does nothing when the probe's exit status is non-zero, or when the node opts out.

Modules:

- `Wrappers`: `Option` and `Result`.
- `Octets`: bytes, `in`, `strip` and `splitlines`.
- `Omshell` and `OmapiKey`: the wrapper.
- `Hardware`, `BlockDevices` and `Interfaces`: reference functions for each hook, over values.
- `Commissioning`: the `Store` class, whose methods update fields in place with loops.
  Each method is proved to produce what the reference functions compute.

Two behaviours are fixed by the tests rather than by what one might assume:

- **CPU count.** It is the sum over enabled processor elements of their `threads` setting,
  or 1 without one. The test at lines 318-334 expects 5; counting cores times threads would
  give a different number.
- **An interface moving to another node.** Its MAC claimed by another node means the old
  interface is deleted and a new one is created, with a fresh id. The test at lines 844-869
  requires the old interface id to be gone.

## Model

| member | source | states |
|---|---|---|
| OmapiKey.BadKeyIsBadWindow | src/provisioningserver/dhcp/omshell.py:36 | the pattern `[+/]no\|no[+/]`, ignoring case, matches a key exactly when some three-character window of the lower-cased key is "+no", "/no", "no+" or "no/" |
| OmapiKey.WindowAt | src/provisioningserver/dhcp/omshell.py:36 | at each index, a match of the pattern is the same thing as a forbidden lower-cased window |
| OmapiKey.KeyWithoutSeparatorsIsGood | src/provisioningserver/dhcp/omshell.py:36 | a key with neither '+' nor '/' never matches |
| OmapiKey.BadKeyExamples | src/provisioningserver/dhcp/omshell.py:36 | "ab+NoC", "xnO/" and "/no" match; "n+o", "+n", "on+" and "" do not |
| OmapiKey.KeyFileName | src/provisioningserver/dhcp/omshell.py:63-64 | the key file's name, built from the decoded key id, always ends in ".private" |
| OmapiKey.KeyIdName | src/provisioningserver/dhcp/omshell.py:63-64 | the output "K<digit>\n" names the file "K<digit>.private": the trailing newline is stripped |
| OmapiKey.Keygen | src/provisioningserver/dhcp/omshell.py:49-80 | the loop uses at least one run when there is one, and never more runs than it is given |
| OmapiKey.KeygenReturnsGoodKey | src/provisioningserver/dhcp/omshell.py:74-80 | a returned key never matches the bad pattern, and it is the Key field of a file left in the directory |
| OmapiKey.NoRetryAfterError | src/provisioningserver/dhcp/omshell.py:56-79 | the loop makes a second run only after a bad key; an error in the first pass ends the loop with that error after one run |
| OmapiKey.EarlierRunsWereRejected | src/provisioningserver/dhcp/omshell.py:75-78 | when more than one run is used, the first one was rejected, and the remaining runs are a loop of their own on the directory without that run's key file |
| OmapiKey.ExamineParsed | src/provisioningserver/dhcp/omshell.py:59-79 | a clean ASCII run whose named file parses to a Key field is accepted with that key, or rejected with its file name when the key is bad |
| OmapiKey.KeyIdRunExamined | src/provisioningserver/dhcp/omshell.py:59-79 | a run that prints a "K<digit>" id and writes that file with a key is accepted, or rejected when the key is bad |
| OmapiKey.BadKeyIsRegenerated | src/provisioningserver/dhcp/omshell.py:75-80 | a first run with the bad key "ab+no" and a second with "abcd" return "abcd" after two runs, and only the second run's file is left |
| OmapiKey.TempDir.constructor | src/provisioningserver/dhcp/omshell.py:94 | the private directory starts empty |
| OmapiKey.TempDir.Remove | src/provisioningserver/dhcp/omshell.py:77 | removing a file leaves the directory without that name and otherwise unchanged |
| OmapiKey.DnssecKeygen.constructor | src/provisioningserver/dhcp/omshell.py:39-46 | the tool holds the runs it will make |
| OmapiKey.DnssecKeygen.Call | src/provisioningserver/dhcp/omshell.py:39-46 | one run writes its files into the directory; a non-zero exit raises with that status, otherwise the run's output (the key id) is returned |
| OmapiKey.KeygenPass | src/provisioningserver/dhcp/omshell.py:57-79 | one pass of the loop ends exactly as `Examine` says, and it removes the key file only when it rejects that file's key |
| OmapiKey.RunRepeatedKeygen | src/provisioningserver/dhcp/omshell.py:49-80 | the loop's result, the directory it leaves and the runs it consumes are those of `Keygen` |
| OmapiKey.GenerateOmapiKey | src/provisioningserver/dhcp/omshell.py:83-96 | the loop runs on a fresh empty directory, and a key it returns never matches the bad pattern |
| Omshell.Omshell.constructor | src/provisioningserver/dhcp/omshell.py:121-129 | the address, key and family are stored, the command is `omshell`, and the port is 7912 exactly for IPv6 and 7911 exactly otherwise |
| Omshell.HostMapName | src/provisioningserver/dhcp/omshell.py:173 | a host map's name is the MAC with each ':' replaced by '-', and of the same length; it contains no ':' |
| Omshell.HostMapNameIdempotent | src/provisioningserver/dhcp/omshell.py:258 | deriving the name from an already derived name changes nothing |
| Omshell.HostMapNameOfLegacyKey | src/provisioningserver/dhcp/omshell.py:251-258 | a legacy key without ':' (an IPv4 address) passes through unchanged, so `remove` reaches legacy host maps too |
| Omshell.CommandsOfStdin | src/provisioningserver/dhcp/omshell.py:174-188 | omshell reads back exactly the commands of a script, provided no substituted field holds a newline |
| Omshell.StdinOfCommands | src/provisioningserver/dhcp/omshell.py:174-188 | every script that ends in a newline is the rendering of the commands it holds |
| Omshell.KeyOnlyWhereNeeded | src/provisioningserver/dhcp/omshell.py:139-308 | the probe's script has no key line; each changing script sends the key just before `connect` and ends with its verb |
| Omshell.ModifyNamesNoPort | src/provisioningserver/dhcp/omshell.py:217-228 | the `modify` script has no "port" line, unlike the other four |
| Omshell.CreateToleratesMore | src/provisioningserver/dhcp/omshell.py:196-203 | whatever `modify` accepts, `create` accepts, and `create` also accepts the I/O error of an existing host map |
| Omshell.ConnectedOutputRemoves | src/provisioningserver/dhcp/omshell.py:277-284 | an output that passes the probe's test also passes `remove`'s |
| Omshell.NotFoundIsAlreadyDone | src/provisioningserver/dhcp/omshell.py:285-316 | "can't open object: not found" makes both `remove` and `nullify_lease` succeed |
| Omshell.InvalidVetoesNullify | src/provisioningserver/dhcp/omshell.py:318-323 | "invalid" in the output fails `nullify_lease` unless the lease was not found |
| Omshell.AcceptedOutputShowsEvidence | src/provisioningserver/dhcp/omshell.py:152-323 | an accepted probe, removal or lease reset has its evidence ("obj: <null", "not found" or the epoch `ends` line) somewhere in the raw output |
| Omshell.BlankOutputRejected | src/provisioningserver/dhcp/omshell.py:152-160 | output made only of newlines, blanks and '>' is never success |
| Omshell.ProbeReplyStripped | src/provisioningserver/dhcp/omshell.py:152 | stripping "> obj: <null>\n> " of newlines, blanks and '>' leaves "obj: <null" |
| Omshell.NullObjectIsOneLine | src/provisioningserver/dhcp/omshell.py:152 | "obj: <null" has no line break, so it splits into itself |
| Omshell.ProbeOfReachableServer | src/provisioningserver/dhcp/omshell.py:149-158 | the reply "> obj: <null>\n> " counts as a working connection |
| Omshell.TryConnectionAsWrittenRaises | src/provisioningserver/dhcp/omshell.py:153-157 | as written, the test raises exactly when the output strips to nothing, and otherwise agrees with the intended classification |
| Omshell.RemoveAsWrittenRaises | src/provisioningserver/dhcp/omshell.py:277-289 | as written, `remove`'s test raises TypeError exactly when the output strips to nothing, before "not found" is looked for, and otherwise agrees with the intended classification |
| Omshell.EmptyOutputFinding | src/provisioningserver/dhcp/omshell.py:155-157 | empty output raises TypeError as written in both `try_connection` and `remove`, while the corrected test answers False for both |
| Omshell.Omshell.Run | src/provisioningserver/dhcp/omshell.py:131-136 | a non-zero exit raises `ExternalProcessError` with that status, the command and the output; otherwise the output is returned |
| Omshell.Omshell.RunAndCheck | src/provisioningserver/dhcp/omshell.py:190-203 | a verb succeeds exactly when omshell exits cleanly with an accepted output; any failure carries the status, the command and the output |
| Omshell.Omshell.TryConnection | src/provisioningserver/dhcp/omshell.py:138-160 | after a clean exit the result is true exactly when the last stripped line contains "obj: <null"; a failed run raises |
| Omshell.Omshell.Create | src/provisioningserver/dhcp/omshell.py:162-203 | success exactly when the exit is clean and the output mentions "hardware-type" or "can't open object: I/O error" |
| Omshell.Omshell.Modify | src/provisioningserver/dhcp/omshell.py:205-243 | success exactly when the exit is clean and the output mentions "hardware-type" |
| Omshell.Omshell.Remove | src/provisioningserver/dhcp/omshell.py:245-289 | success exactly when the exit is clean and either the last line shows a null object or the output says "not found" |
| Omshell.Omshell.NullifyLease | src/provisioningserver/dhcp/omshell.py:291-325 | success exactly when the exit is clean and either the lease was not found, or there is no "invalid" and a "\nends = 00:00:00:00" line |
| Octets.Decode | src/provisioningserver/dhcp/omshell.py:63 | ASCII decoding gives one character per byte, with the same code |
| Octets.Strip | src/provisioningserver/dhcp/omshell.py:152 | `strip` keeps a contiguous piece of the input: only stripped bytes lie before and after it, and it neither starts nor ends with one |
| Octets.SplitLines | src/provisioningserver/dhcp/omshell.py:152 | `splitlines` gives no lines exactly for empty input, and no line holds a line break |
| Octets.LinesAreSlices | src/provisioningserver/dhcp/omshell.py:152 | every line is a contiguous piece of the input |
| Octets.LastOfSplitLines | src/provisioningserver/dhcp/omshell.py:152-154 | the last line is what follows the last break, once one trailing break is dropped |
| Octets.LastLineIsAfterLastBreak | src/provisioningserver/dhcp/omshell.py:152-156 | the classifier's last line is, without `splitlines`, the text after the last break of the stripped output |
| Octets.LastLineInOutput | src/provisioningserver/dhcp/omshell.py:152-157 | what the last line contains, the raw output contains |
| Hardware.Threads | src/metadataserver/models/tests/test_commissioningscript.py:318-334 | there is no thread count exactly when no setting is called "threads", and a count comes from such a setting |
| Hardware.TotalIsSumOverElements | src/metadataserver/models/tests/test_commissioningscript.py:302-384 | the tree total is the sum of each element's own share, over every element of the document |
| Hardware.AddChild | src/metadataserver/models/tests/test_commissioningscript.py:336-347 | adding a subtree adds exactly its total; a disabled processor without children adds nothing to the CPU count |
| Hardware.EnabledProcessors | src/metadataserver/models/tests/test_commissioningscript.py:336-347 | this selects exactly the elements that are processors and not disabled |
| Hardware.UnitsCountProcessors | src/metadataserver/models/tests/test_commissioningscript.py:306-347 | without thread settings, each enabled processor counts one |
| Hardware.CpuCountWithoutThreads | src/metadataserver/models/tests/test_commissioningscript.py:306-347 | without thread settings, the CPU count is the number of enabled processor elements |
| Hardware.PlainCpusCount | src/metadataserver/models/tests/test_commissioningscript.py:306-316 | two plain processors give 2 |
| Hardware.ThreadedCpuWeight | src/metadataserver/models/tests/test_commissioningscript.py:318-334 | a processor with 2 cores and 4 threads counts 4 |
| Hardware.ThreadsCounted | src/metadataserver/models/tests/test_commissioningscript.py:318-334 | that processor next to a plain one gives 5 |
| Hardware.DisabledCpusNotCounted | src/metadataserver/models/tests/test_commissioningscript.py:336-347 | one enabled and two disabled processors give 1 |
| Hardware.MemoryExamples | src/metadataserver/models/tests/test_commissioningscript.py:349-384 | a memory element of 4294967296 bytes gives 4096 MiB; the nested banks of the second test give 7680 MiB |
| BlockDevices.Admitted | src/metadataserver/models/tests/test_commissioningscript.py:689-704 | an entry survives exactly when it is in the report, at least the minimum size, and not a loop device |
| BlockDevices.FilterExamples | src/metadataserver/models/tests/test_commissioningscript.py:689-704 | undersized entries and "/dev/loop0" are dropped; an empty id path is judged by its "/dev/<NAME>"; a large "/dev/disk/by-id/deviceid" entry is kept |
| BlockDevices.TagsFollowReport | src/metadataserver/models/tests/test_commissioningscript.py:617-687 | "rotary" exactly for ROTA 1, "ssd" exactly otherwise, "removable" exactly for RM 1, "sata" exactly for SATA 1; a rotary device also gets "<RPM>rpm" when RPM is neither empty nor "0" |
| BlockDevices.MatchIndex | src/metadataserver/models/tests/test_commissioningscript.py:503-520 | an entry takes the first previous device not yet matched that has its identity; no earlier one qualifies |
| BlockDevices.Keep | src/metadataserver/models/tests/test_commissioningscript.py:485-489 | exactly the devices whose id was not left unmatched survive |
| BlockDevices.StepProgress | src/metadataserver/models/tests/test_commissioningscript.py:491-535 | each entry keeps the pass invariant: an entry sits on its own device, ids stay sorted and distinct, and no earlier candidate was skipped |
| BlockDevices.FoldProgress | src/metadataserver/models/tests/test_commissioningscript.py:491-535 | the whole pass keeps that invariant, keeps all previous ids, and leaves only previous ids unmatched |
| BlockDevices.ReconcileSynced | src/metadataserver/models/tests/test_commissioningscript.py:491-535 | afterwards each admitted entry sits on its own device, and the node has no other device |
| BlockDevices.ReconcileValid | src/metadataserver/models/tests/test_commissioningscript.py:521-546 | ids stay sorted and below the allocator; the allocator only grows; each id is an old one or newly allocated |
| BlockDevices.ReconcileIdempotent | src/metadataserver/models/tests/test_commissioningscript.py:521-546 | applying the same report again changes nothing: the same devices, ids and boot disk, and no new id |
| BlockDevices.StoredDevicesAreAdmitted | src/metadataserver/models/tests/test_commissioningscript.py:570-704 | every stored device comes from an admitted entry, which it describes: at least the minimum size, not a loop device |
| BlockDevices.StoredPathsAndTags | src/metadataserver/models/tests/test_commissioningscript.py:589-687 | every stored device has the name, the id path (with the "/dev/<NAME>" fallback) and the tags of an admitted entry |
| BlockDevices.StoredIdPaths | src/metadataserver/models/tests/test_commissioningscript.py:589-605 | an admitted entry with an empty id path is stored as a device of its name with the id path "/dev/<NAME>"; one with an id path keeps that path |
| BlockDevices.AdmittedEntriesAreStored | src/metadataserver/models/tests/test_commissioningscript.py:491-501 | every admitted entry is stored as a device it describes |
| BlockDevices.MatchedDeviceKeepsId | src/metadataserver/models/tests/test_commissioningscript.py:503-535 | the first previous device with an admitted entry's identity, when no earlier entry has that identity, is refreshed from the entry and keeps its id |
| BlockDevices.BootDiskFollowsItsDevice | src/metadataserver/models/tests/test_commissioningscript.py:537-555 | the boot disk stays exactly when its device survives, and is cleared exactly when it does not |
| BlockDevices.EmptyReportRemovesAll | src/metadataserver/models/tests/test_commissioningscript.py:485-489 | an empty report deletes every device and clears the boot disk |
| BlockDevices.FreshAt | src/metadataserver/models/tests/test_commissioningscript.py:557-568 | on a node with no devices, entry i becomes device n + i |
| BlockDevices.FoldFresh | src/metadataserver/models/tests/test_commissioningscript.py:557-568 | on a node with no devices, the pass creates exactly those devices and allocates one id per entry |
| BlockDevices.NewDevicesInReportOrder | src/metadataserver/models/tests/test_commissioningscript.py:557-568 | a node without devices gets one per admitted entry, in report order, with consecutive ids |
| Interfaces.ClaimAllUnreported | src/metadataserver/models/tests/test_commissioningscript.py:801-822 | claiming the reported pairs leaves an unreported MAC exactly as it was |
| Interfaces.ClaimAllReported | src/metadataserver/models/tests/test_commissioningscript.py:897-914 | a reported MAC ends on the node, under the name last reported for it |
| Interfaces.ClaimAllIds | src/metadataserver/models/tests/test_commissioningscript.py:844-925 | a reported MAC keeps its id when the node held it, and otherwise gets a newly allocated id |
| Interfaces.ClaimAllSettled | src/metadataserver/models/tests/test_commissioningscript.py:916-925 | when every reported MAC is already on the node, no id is allocated |
| Interfaces.ClaimAllValid | src/metadataserver/models/tests/test_commissioningscript.py:844-869 | claiming keeps ids allocated and distinct |
| Interfaces.NodeHoldsReportedMacs | src/metadataserver/models/tests/test_commissioningscript.py:769-822 | the node ends up holding exactly the reported MACs, each under its last reported name |
| Interfaces.UnreportedMacs | src/metadataserver/models/tests/test_commissioningscript.py:801-822 | an unreported MAC survives exactly when another node holds it, and is then unchanged |
| Interfaces.SameNodeKeepsId | src/metadataserver/models/tests/test_commissioningscript.py:916-925 | an interface of the node that is reported again keeps its id |
| Interfaces.MovedInterfaceIsRecreated | src/metadataserver/models/tests/test_commissioningscript.py:844-869 | the interface another node held under a reported MAC is gone: its id is on no interface, and the MAC's new id is fresh |
| Interfaces.ReassignedMacLeavesOldNode | src/metadataserver/models/tests/test_commissioningscript.py:824-842 | a node all of whose MACs another node reports keeps no interface |
| Interfaces.UpdateValid | src/metadataserver/models/tests/test_commissioningscript.py:844-869 | the update keeps ids allocated and distinct, and the allocator only grows |
| Interfaces.UpdateIdempotent | src/metadataserver/models/tests/test_commissioningscript.py:916-925 | reporting the same pairs again changes nothing: the same interfaces, ids and allocator |
| Commissioning.RunPass | src/metadataserver/models/tests/test_commissioningscript.py:491-535 | the loop over the admitted entries computes the pass `Fold` specifies |
| Commissioning.ReconcileStorage | src/metadataserver/models/tests/test_commissioningscript.py:485-568 | its result is `Reconcile`: the pass, then the unmatched devices deleted and a boot disk among them cleared |
| Commissioning.ReconcileKeepsStoreValid | src/metadataserver/models/tests/test_commissioningscript.py:607-615 | one node's reconciliation keeps every node valid and keeps device ids disjoint between nodes |
| Commissioning.Store.UpdateHardwareDetails | src/metadataserver/models/tests/test_commissioningscript.py:302-416 | after a clean exit with a parsed tree, the node's CPU count and memory are the tree's; otherwise nothing changes |
| Commissioning.Store.UpdateNodePhysicalBlockDevices | src/metadataserver/models/tests/test_commissioningscript.py:473-704 | after a clean exit, for a node that does not skip storage, its devices, boot disk and the allocator are those of `Reconcile`; otherwise nothing changes; the store stays valid |
| Commissioning.Store.UpdateNodeNetworkInformation | src/metadataserver/models/tests/test_commissioningscript.py:763-925 | after a clean exit, for a node that does not skip networking, the interfaces and allocator are those of `Update`; otherwise nothing changes; the store stays valid |

## Left out

- Running processes: omshell, `dnssec-keygen` and `Popen` are parameters (a function, or a
  finite list of runs). Process launch, pipes, signals and `proc.poll()` timing are not
  modelled.
- `call_dnssec_keygen`'s environment: the `PATH` extension with `/usr/sbin` and the tool's
  command line are not modelled. Only the run's result is.
- `parse_key_value_file` is modelled by its result: the parsed fields, or `Unparsable` for
  its `ValueError`. Its source is not part of this model.
- `tempdir`: the directory's creation, privacy and deletion afterwards are not modelled.
  The directory is a map from file name to parsed content.
- `os.path.join`: file names are relative to the directory.
- RunRepeatedKeygen: the source loops without bound. Here the tool has a finite list of
  runs, and running out of them ends the loop with `OracleExhausted`. The source has no
  such error.
- `.encode("utf-8")` of the scripts: scripts stay text strings. The model does not capture
  that a non-ASCII address or key would be multi-byte.
- `dedent` and `format`: scripts are modelled as lists of commands. A substituted field
  holding a newline would split a command; `CommandsOfStdin` requires that none does.
- Omshell.Omshell.constructor: the source tests `ipv6 is True`, so a truthy value other than
  `True` selects port 7911. Here `ipv6` is a `bool` (defaulting to false, as in the source),
  so such a value cannot be passed.
- The `@typed` argument checks and all logging (`maaslog.debug`, "Invalid lshw data") are
  not modelled.
- `generate_omapi_key` and `__file__`: the directory prefix is not modelled.
- Parsing is out of scope: the lshw XML, the block-device JSON and the `ip addr` output.
  The hooks take the parsed value. An lshw document that does not parse is `None`, and
  leaves the node unchanged. The block-device and network tests only pass unparsable
  output together with a non-zero exit status or an opted-out node. So the model does not
  say what happens when that output fails to parse.
- Hardware: only "bytes" sizes and integer settings are read. `cpu_speed`, `parse_cpuinfo`,
- Hardware: any `disabled` value other than "true" counts as enabled, and processor
  elements are counted at any depth of the tree. Both are the model's choice, since
  `update_hardware_details` is not part of this model. The tests only show that
  `disabled="true"` disables, and they put every processor directly under `<node id="core">`.
  Memory elements are also counted at any depth; here the tests do show nested banks.
  tags, and the virtual tag are not modelled.
- BlockDevices: `MIN_BLOCK_DEVICE_SIZE` is taken as 4 MiB. The module defining it is not
  part of this model. An entry of exactly that size is kept.
- BlockDevices: the `PATH` and `RO` fields are not modelled. The fallback id path is
  "/dev/<NAME>", which is what the test helper's `PATH` holds.
- BlockDevices: the storage of other kinds of block devices (the source only touches
  physical ones) and the Django model fields beyond those the tests inspect are not
  modelled.
- Interfaces: VLAN, bond and other virtual interfaces (the tests at lines 871-895 and
  966-1003), discovered IP addresses (1004-1035) and the legacy-model upgrade (927-965) are
  not modelled. Only physical interfaces are, keyed by MAC.
- The tests of the script archive, binary scripts, LLDP router extraction, `inject_result`,
  the virtual tag (lines 92-300) and `parse_cpuinfo` (418-433) are not part of the named
  hooks.
- Persistence: the database, `reload_object`, `save` and concurrent writers are not
  modelled. The store is one in-memory object.

## Findings

| source | as written | input that shows it | evidently intended | confidence | as-written member | corrected member |
|---|---|---|---|---|---|---|
| src/provisioningserver/dhcp/omshell.py:153-157 | in `try_connection`, with no lines, `last_line = ""` is a text string, so `b"obj: <null" in last_line` raises TypeError | omshell exits 0 with empty output, or only "> " and newlines (`Omshell.EmptyOutputFinding`) | `try_connection` returns False: blank output is no evidence of a connection | high, not executed | Omshell.TryConnectionAsWrittenRaises | Omshell.BlankOutputRejected |
| src/provisioningserver/dhcp/omshell.py:277-289 | in `remove`, the same `last_line = ""` test raises TypeError before the "not found" test is reached | omshell exits 0 with empty output (`Omshell.EmptyOutputFinding`) | `remove` raises `ExternalProcessError` with the exit status, command and output | high, not executed | Omshell.RemoveAsWrittenRaises | Omshell.BlankOutputRejected |
