/**
 * The wrapper around the `omshell` tool, which edits host maps and leases inside a
 * running DHCP daemon over OMAPI (src/provisioningserver/dhcp/omshell.py).
 *
 * Each operation writes a fixed, line-oriented script to omshell's standard input and
 * classifies what the tool prints. omshell itself is a parameter: a function from the
 * script to the exit status and output of one run.
 */
module Omshell {
  import opened Wrappers
  import opened Octets

  const IPV4_PORT: int := 7911
  const IPV6_PORT: int := 7912

  /** The identifier under which a host map is kept in the DHCP server: the MAC address
      with every ':' turned into '-' (`mac_address.replace(':', '-')`). */
  function HostMapName(mac: string): (name: string)
    ensures |name| == |mac|
    ensures forall i :: 0 <= i < |mac| ==> name[i] == (if mac[i] == ':' then '-' else mac[i])
    ensures ':' !in name
  {
    if mac == [] then [] else [if mac[0] == ':' then '-' else mac[0]] + HostMapName(mac[1..])
  }

  /** Naming an already-derived name again changes nothing. */
  lemma HostMapNameIdempotent(mac: string)
    ensures HostMapName(HostMapName(mac)) == HostMapName(mac)
  {
  }

  /** A legacy key without ':' (an IPv4 address, as used before host maps were keyed by MAC)
      is passed through unchanged, so `remove` reaches legacy records too. */
  lemma {:induction false} HostMapNameOfLegacyKey(key: string)
    requires ':' !in key
    ensures HostMapName(key) == key
  {
    if key != [] {
      assert key[0] != ':';
      assert ':' !in key[1..];
      HostMapNameOfLegacyKey(key[1..]);
    }
  }

  function DigitChar(d: nat): char
    requires d < 10
  {
    "0123456789"[d]
  }

  function Digits(n: nat): string
    decreases n
  {
    if n < 10 then [DigitChar(n)] else Digits(n / 10) + [DigitChar(n % 10)]
  }

  /** `str(n)` for the port number in a script. */
  function Decimal(n: int): string {
    if n < 0 then "-" + Digits(-n) else Digits(n)
  }

  // ---------------------------------------------------------------------------
  // Scripts

  /** The standard input of one omshell run: each command followed by a newline
      (the dedented templates end with one). */
  function Stdin(commands: seq<string>): string {
    if commands == [] then "" else commands[0] + "\n" + Stdin(commands[1..])
  }

  /** Index of the first newline of `s`, or |s|. */
  function NewlineAt(s: string): (k: nat)
    ensures k <= |s| && '\n' !in s[..k]
    ensures k < |s| ==> s[k] == '\n'
  {
    if s == [] || s[0] == '\n' then 0 else 1 + NewlineAt(s[1..])
  }

  /** The commands omshell reads from its standard input, one per line. */
  function Commands(stdin: string): seq<string>
    decreases |stdin|
  {
    if stdin == [] then []
    else
      var k := NewlineAt(stdin);
      if k == |stdin| then [stdin] else [stdin[..k]] + Commands(stdin[k + 1..])
  }

  predicate OneLine(c: string) { '\n' !in c }

  /** omshell reads back exactly the commands that were written, as long as no field
      substituted into a template contains a newline. */
  lemma {:induction false} CommandsOfStdin(commands: seq<string>)
    requires forall c :: c in commands ==> OneLine(c)
    ensures Commands(Stdin(commands)) == commands
  {
    if commands != [] {
      var first := commands[0];
      var rest := Stdin(commands[1..]);
      var s := first + "\n" + rest;
      assert first in commands;
      assert s[..|first|] == first && s[|first|] == '\n';
      NewlineBeyond(first, rest);
      assert s[|first| + 1..] == rest;
      assert forall c :: c in commands[1..] ==> c in commands;
      CommandsOfStdin(commands[1..]);
    }
  }

  lemma {:induction false} NewlineBeyond(first: string, rest: string)
    requires OneLine(first)
    ensures NewlineAt(first + "\n" + rest) == |first|
  {
    if first != [] {
      assert first[0] in first;
      assert (first + "\n" + rest)[1..] == first[1..] + "\n" + rest;
      assert OneLine(first[1..]);
      NewlineBeyond(first[1..], rest);
    }
  }

  lemma StdinCons(c: string, cs: seq<string>)
    ensures Stdin([c] + cs) == c + "\n" + Stdin(cs)
  {
    assert ([c] + cs)[1..] == cs;
  }

  lemma SplitAtNewline(s: string, k: nat)
    requires k < |s| && s[k] == '\n'
    ensures s == s[..k] + "\n" + s[k + 1..]
  {
  }

  /** Conversely, a script that ends with a newline is the rendering of its commands. */
  lemma {:induction false} StdinOfCommands(stdin: string)
    requires stdin == [] || stdin[|stdin| - 1] == '\n'
    ensures Stdin(Commands(stdin)) == stdin
    decreases |stdin|
  {
    if stdin != [] {
      var k := NewlineAt(stdin);
      var rest := stdin[k + 1..];
      assert rest != [] ==> rest[|rest| - 1] == stdin[|stdin| - 1];
      StdinOfCommands(rest);
      assert Commands(stdin) == [stdin[..k]] + Commands(rest);
      StdinCons(stdin[..k], Commands(rest));
      SplitAtNewline(stdin, k);
    }
  }

  /** `try_connection`: names the server and connects. */
  function TryConnectionCommands(address: string, port: int): seq<string> {
    ["server " + address, "port " + Decimal(port), "connect"]
  }

  /** `c` begins with the word `w`. */
  predicate BeginsWith(c: string, w: string) {
    |w| <= |c| && c[..|w|] == w
  }

  lemma FirstCharDiffers(c: string, w: string)
    requires c != [] && w != [] && c[0] != w[0]
    ensures !BeginsWith(c, w)
  {
    assert |w| <= |c| ==> c[..|w|][0] == c[0];
  }

  function KeyCommand(key: string): string {
    "key omapi_key " + key
  }

  function NameCommand(mac: string): string {
    "set name = \"" + HostMapName(mac) + "\""
  }

  /** `create`: a new host object for `mac` at `ip`, named by the MAC. */
  function CreateCommands(address: string, port: int, key: string, ip: string, mac: string): seq<string> {
    ["server " + address, "port " + Decimal(port), KeyCommand(key), "connect", "new host",
     "set ip-address = " + ip, "set hardware-address = " + mac, "set hardware-type = 1",
     NameCommand(mac), "create"]
  }

  /** `modify`: opens the host named by the MAC and updates it. Like the source, this
      script has no "port" line. */
  function ModifyCommands(address: string, key: string, ip: string, mac: string): seq<string> {
    ["server " + address, KeyCommand(key), "connect", "new host", NameCommand(mac), "open",
     "set ip-address = " + ip, "set hardware-address = " + mac, "set hardware-type = 1", "update"]
  }

  /** `remove`: opens the host named by the (MAC or legacy) key and removes it. */
  function RemoveCommands(address: string, port: int, key: string, mac: string): seq<string> {
    ["server " + address, "port " + Decimal(port), KeyCommand(key), "connect", "new host",
     NameCommand(mac), "open", "remove"]
  }

  /** `nullify_lease`: opens the lease of `ip` and sets its end to the epoch. */
  function NullifyLeaseCommands(address: string, port: int, key: string, ip: string): seq<string> {
    ["server " + address, "port " + Decimal(port), KeyCommand(key), "connect", "new lease",
     "set ip-address = " + ip, "open", "set ends = 00:00:00:00", "update"]
  }

  /** The probe never hands omshell the key; every script that changes the DHCP server
      does, before it connects, and ends with its verb. */
  lemma KeyOnlyWhereNeeded(address: string, port: int, key: string, ip: string, mac: string)
    ensures forall c :: c in TryConnectionCommands(address, port) ==> !BeginsWith(c, "key ")
    ensures var c := CreateCommands(address, port, key, ip, mac);
            c[2] == KeyCommand(key) && c[3] == "connect" && c[|c| - 1] == "create"
    ensures var m := ModifyCommands(address, key, ip, mac);
            m[1] == KeyCommand(key) && m[2] == "connect" && m[|m| - 1] == "update"
    ensures var r := RemoveCommands(address, port, key, mac);
            r[2] == KeyCommand(key) && r[3] == "connect" && r[|r| - 1] == "remove"
    ensures var n := NullifyLeaseCommands(address, port, key, ip);
            n[2] == KeyCommand(key) && n[3] == "connect" && n[|n| - 1] == "update"
  {
    var t := TryConnectionCommands(address, port);
    FirstCharDiffers(t[0], "key ");
    FirstCharDiffers(t[1], "key ");
    FirstCharDiffers(t[2], "key ");
  }

  /** The `modify` script never names a port, so omshell uses its default one. */
  lemma ModifyNamesNoPort(address: string, key: string, ip: string, mac: string)
    ensures forall c :: c in ModifyCommands(address, key, ip, mac) ==> !BeginsWith(c, "port ")
  {
    var m := ModifyCommands(address, key, ip, mac);
    forall i | 0 <= i < |m| ensures !BeginsWith(m[i], "port ") {
      assert m[i][0] != 'p';
      FirstCharDiffers(m[i], "port ");
    }
  }

  // ---------------------------------------------------------------------------
  // Response classification

  const HARDWARE_TYPE: Bytes := [104, 97, 114, 100, 119, 97, 114, 101, 45, 116, 121, 112, 101]
  const IO_ERROR: Bytes := [99, 97, 110, 39, 116, 32, 111, 112, 101, 110, 32, 111, 98, 106, 101, 99, 116, 58, 32, 73, 47, 79, 32, 101, 114, 114, 111, 114]
  const NOT_FOUND: Bytes := [99, 97, 110, 39, 116, 32, 111, 112, 101, 110, 32, 111, 98, 106, 101, 99, 116, 58, 32, 110, 111, 116, 32, 102, 111, 117, 110, 100]
  const NULL_OBJECT: Bytes := [111, 98, 106, 58, 32, 60, 110, 117, 108, 108]
  const INVALID: Bytes := [105, 110, 118, 97, 108, 105, 100]
  const ENDS_EPOCH: Bytes := [10, 101, 110, 100, 115, 32, 61, 32, 48, 48, 58, 48, 48, 58, 48, 48, 58, 48, 48]

  datatype Verb = TryConnection | Create | Modify | Remove | NullifyLease

  /** Whether omshell's output counts as success for `verb`. omshell has no machine-readable
      status, so these are the source's substring and last-line tests. For `TryConnection`
      this is the boolean returned; for the others a rejected output raises. */
  function Accepts(verb: Verb, output: Bytes): bool {
    match verb
    case TryConnection => Contains(LastLine(output), NULL_OBJECT)
    case Create => Contains(output, HARDWARE_TYPE) || Contains(output, IO_ERROR)
    case Modify => Contains(output, HARDWARE_TYPE)
    case Remove => Contains(LastLine(output), NULL_OBJECT) || Contains(output, NOT_FOUND)
    case NullifyLease =>
      Contains(output, NOT_FOUND) || (!Contains(output, INVALID) && Contains(output, ENDS_EPOCH))
  }

  /** Whatever `modify` accepts, `create` accepts; `create` also tolerates an existing map. */
  lemma CreateToleratesMore(output: Bytes)
    ensures Accepts(Modify, output) ==> Accepts(Create, output)
    ensures Contains(output, IO_ERROR) ==> Accepts(Create, output)
  {
  }

  /** A reachable server answers `remove` the way it answers the probe: a null object last. */
  lemma ConnectedOutputRemoves(output: Bytes)
    ensures Accepts(TryConnection, output) ==> Accepts(Remove, output)
  {
  }

  /** "not found" makes `remove` and `nullify_lease` succeed: the object is already gone. */
  lemma NotFoundIsAlreadyDone(output: Bytes)
    requires Contains(output, NOT_FOUND)
    ensures Accepts(Remove, output) && Accepts(NullifyLease, output)
  {
  }

  /** Success of the last-line verbs needs the evidence somewhere in the output. */
  lemma AcceptedOutputShowsEvidence(output: Bytes)
    ensures Accepts(TryConnection, output) ==> Contains(output, NULL_OBJECT)
    ensures Accepts(Remove, output) ==> Contains(output, NULL_OBJECT) || Contains(output, NOT_FOUND)
    ensures Accepts(NullifyLease, output) ==> Contains(output, NOT_FOUND) || Contains(output, ENDS_EPOCH)
  {
    if Contains(LastLine(output), NULL_OBJECT) {
      LastLineInOutput(output, NULL_OBJECT);
    }
  }

  /** The probe's typical answer, "> obj: <null>\n> ". */
  function ProbeReply(): Bytes {
    [62, 32, 111, 98, 106, 58, 32, 60, 110, 117, 108, 108, 62, 10, 62, 32]
  }

  lemma ProbeReplyLeading()
    ensures LeadingCount(ProbeReply(), PROMPT_CHARS) == 2
  {
    var o := ProbeReply();
    assert o[1..][1..] == o[2..];
    assert LeadingCount(o[2..], PROMPT_CHARS) == 0;
  }

  lemma ProbeReplyTrailing()
    ensures TrailingStart(ProbeReply(), PROMPT_CHARS, 2) == 12
  {
    var o := ProbeReply();
    assert o[..|o| - 1][..15 - 1] == o[..14];
    assert o[..14][..13] == o[..13];
    assert o[..13][..12] == o[..12];
    assert TrailingStart(o[..12], PROMPT_CHARS, 2) == 12;
  }

  lemma ProbeReplyStripped()
    ensures Strip(ProbeReply(), PROMPT_CHARS) == NULL_OBJECT
  {
    ProbeReplyLeading();
    ProbeReplyTrailing();
    assert ProbeReply()[2..12] == NULL_OBJECT;
  }

  /** The probe's typical answer is success: the strip also removes the closing '>', which is
      why the source looks for "obj: <null" without it. */
  lemma ProbeOfReachableServer()
    ensures Accepts(TryConnection, ProbeReply())
  {
    ProbeReplyStripped();
    NullObjectIsOneLine();
    assert OccursAt(NULL_OBJECT, NULL_OBJECT, 0);
  }

  lemma NullObjectIsOneLine()
    ensures SplitLines(NULL_OBJECT) == [NULL_OBJECT]
  {
    var st := NULL_OBJECT;
    assert LF !in st && CR !in st;
    assert NoBreak(st);
    assert BreakAt(st) == |st|;
  }

  /** "invalid" vetoes a lease update unless the lease was not found at all. */
  lemma InvalidVetoesNullify(output: Bytes)
    requires Contains(output, INVALID) && !Contains(output, NOT_FOUND)
    ensures !Accepts(NullifyLease, output)
  {
  }

  lemma NothingInEmpty(needle: Bytes)
    requires needle != []
    ensures !Contains([], needle)
  {
  }

  /** Output that is only prompts, blanks and newlines is never success. */
  lemma BlankOutputRejected(output: Bytes, verb: Verb)
    requires Strip(output, PROMPT_CHARS) == []
    ensures !Accepts(verb, output)
  {
    var a :| StrippedAt(output, [], PROMPT_CHARS, a);
    assert forall i :: 0 <= i < |output| ==> output[i] in PROMPT_CHARS;
    NeedleNotInPrompts(output, HARDWARE_TYPE);
    NeedleNotInPrompts(output, IO_ERROR);
    NeedleNotInPrompts(output, NOT_FOUND);
    NeedleNotInPrompts(output, ENDS_EPOCH);
    NothingInEmpty(NULL_OBJECT);
  }

  /** A needle holding a byte outside `b'\n >'` cannot occur in output made of those bytes. */
  lemma NeedleNotInPrompts(output: Bytes, needle: Bytes)
    requires forall i :: 0 <= i < |output| ==> output[i] in PROMPT_CHARS
    requires needle != [] && needle[|needle| - 1] !in PROMPT_CHARS
    ensures !Contains(output, needle)
  {
    forall i | 0 <= i <= |output| - |needle| ensures !OccursAt(output, needle, i) {
      var j := i + |needle| - 1;
      assert output[j] in PROMPT_CHARS;
      assert output[i..i + |needle|][|needle| - 1] == output[j];
    }
  }

  // ---------------------------------------------------------------------------
  // The source as written on blank output

  /** What `last_line` holds in the source: the last line as bytes, or, when there are no
      lines, the *text* string "" (`last_line = ""`). */
  datatype LastLineValue = LineBytes(line: Bytes) | EmptyText

  datatype PyError = TypeError

  function LastLineAsWritten(output: Bytes): LastLineValue {
    var lines := SplitLines(Strip(output, PROMPT_CHARS));
    if lines == [] then EmptyText else LineBytes(lines[|lines| - 1])
  }

  /** `b"obj: <null" in last_line`: a bytes needle in a text string raises TypeError. */
  function InAsWritten(needle: Bytes, line: LastLineValue): Result<bool, PyError> {
    match line
    case LineBytes(l) => Success(Contains(l, needle))
    case EmptyText => Failure(TypeError)
  }

  /** `try_connection`'s test as written: it raises on output that strips to nothing,
      where the intent (a boolean, False for an unreachable server) is `Accepts`. */
  function TryConnectionAsWritten(output: Bytes): Result<bool, PyError> {
    InAsWritten(NULL_OBJECT, LastLineAsWritten(output))
  }

  /** The as-written test agrees with `Accepts` except on blank output, where it raises. */
  lemma TryConnectionAsWrittenRaises(output: Bytes)
    ensures TryConnectionAsWritten(output).Failure? <==> Strip(output, PROMPT_CHARS) == []
    ensures Strip(output, PROMPT_CHARS) != [] ==>
              TryConnectionAsWritten(output) == Success(Accepts(TryConnection, output))
  {
  }

  /** `remove`'s test as written: the same `last_line` test comes before the "not found"
      test, so blank output raises TypeError instead of `ExternalProcessError`. */
  function RemoveAsWritten(output: Bytes): Result<bool, PyError> {
    match InAsWritten(NULL_OBJECT, LastLineAsWritten(output))
    case Failure(e) => Failure(e)
    case Success(connected) => Success(connected || Contains(output, NOT_FOUND))
  }

  /** The as-written removal test agrees with `Accepts` except on blank output, where it
      raises before "not found" is looked for. */
  lemma RemoveAsWrittenRaises(output: Bytes)
    ensures RemoveAsWritten(output).Failure? <==> Strip(output, PROMPT_CHARS) == []
    ensures Strip(output, PROMPT_CHARS) != [] ==>
              RemoveAsWritten(output) == Success(Accepts(Remove, output))
  {
  }

  /** The input that shows it: empty output raises TypeError as written, while the
      corrected classification answers False. */
  lemma EmptyOutputFinding()
    ensures TryConnectionAsWritten([]) == Failure(TypeError)
    ensures RemoveAsWritten([]) == Failure(TypeError)
    ensures !Accepts(TryConnection, []) && !Accepts(Remove, [])
  {
    BlankOutputRejected([], TryConnection);
    BlankOutputRejected([], Remove);
  }

  // ---------------------------------------------------------------------------
  // The session

  /** One omshell run: exit status and standard output. */
  datatype ProcessResult = ProcessResult(returncode: int, stdout: Bytes)

  /** `ExternalProcessError(returncode, command, output)`. */
  datatype ProcessError = ExternalProcessError(returncode: int, command: seq<string>, output: Bytes)

  datatype Outcome = Done | Raised(error: ProcessError)

  class Omshell {
    var serverAddress: string
    var sharedKey: string
    var ipv6: bool
    var serverPort: int
    var command: seq<string>

    /** The port is fixed by the address family: 7912 for IPv6, 7911 otherwise; the family
        is IPv4 unless asked for. */
    constructor (serverAddress: string, sharedKey: string, ipv6: bool := false)
      ensures this.serverAddress == serverAddress && this.sharedKey == sharedKey
      ensures this.ipv6 == ipv6 && command == ["omshell"]
      ensures serverPort == 7912 <==> ipv6
      ensures serverPort == 7911 <==> !ipv6
    {
      this.serverAddress := serverAddress;
      this.sharedKey := sharedKey;
      this.ipv6 := ipv6;
      command := ["omshell"];
      if ipv6 {
        serverPort := IPV6_PORT;
      } else {
        serverPort := IPV4_PORT;
      }
    }

    /** `_run`: feeds `stdin` to one omshell process; a non-zero exit status raises with
        that status and the output, otherwise the output is returned. */
    method Run(stdin: string, omshell: string -> ProcessResult) returns (r: Result<Bytes, ProcessError>)
      ensures var p := omshell(stdin);
              (r.Success? <==> p.returncode == 0)
              && (r.Success? ==> r.value == p.stdout)
              && (r.Failure? ==> r.error == ExternalProcessError(p.returncode, command, p.stdout))
    {
      var p := omshell(stdin);
      if p.returncode != 0 {
        return Failure(ExternalProcessError(p.returncode, command, p.stdout));
      }
      return Success(p.stdout);
    }

    /** Runs `commands` and raises unless the output is accepted for `verb`. After a clean
        exit the error carries the status 0 that `_run` returned. */
    method RunAndCheck(verb: Verb, commands: seq<string>, omshell: string -> ProcessResult) returns (r: Outcome)
      ensures var p := omshell(Stdin(commands));
              (r.Done? <==> p.returncode == 0 && Accepts(verb, p.stdout))
              && (r.Raised? ==> r.error == ExternalProcessError(p.returncode, command, p.stdout))
    {
      var out := Run(Stdin(commands), omshell);
      match out
      case Failure(e) => r := Raised(e);
      case Success(output) =>
        if Accepts(verb, output) {
          r := Done;
        } else {
          r := Raised(ExternalProcessError(0, command, output));
        }
    }

    /** True exactly when the last line of the output shows a null object; a failed run
        raises. The script carries no key. */
    method TryConnection(omshell: string -> ProcessResult) returns (r: Result<bool, ProcessError>)
      ensures var p := omshell(Stdin(TryConnectionCommands(serverAddress, serverPort)));
              (r.Success? <==> p.returncode == 0)
              && (r.Success? ==> r.value == Contains(LastLine(p.stdout), NULL_OBJECT))
              && (r.Failure? ==> r.error == ExternalProcessError(p.returncode, command, p.stdout))
    {
      var out := Run(Stdin(TryConnectionCommands(serverAddress, serverPort)), omshell);
      match out
      case Failure(e) => r := Failure(e);
      case Success(output) => r := Success(Accepts(Verb.TryConnection, output));
    }

    /** Succeeds exactly when the output mentions "hardware-type" or the I/O error of an
        existing map; otherwise raises with status, command and output. */
    method Create(ipAddress: string, macAddress: string, omshell: string -> ProcessResult) returns (r: Outcome)
      ensures var p := omshell(Stdin(CreateCommands(serverAddress, serverPort, sharedKey, ipAddress, macAddress)));
              (r.Done? <==> p.returncode == 0 && (Contains(p.stdout, HARDWARE_TYPE) || Contains(p.stdout, IO_ERROR)))
              && (r.Raised? ==> r.error == ExternalProcessError(p.returncode, command, p.stdout))
    {
      r := RunAndCheck(Verb.Create, CreateCommands(serverAddress, serverPort, sharedKey, ipAddress, macAddress), omshell);
    }

    /** Succeeds exactly when the output mentions "hardware-type"; otherwise raises. */
    method Modify(ipAddress: string, macAddress: string, omshell: string -> ProcessResult) returns (r: Outcome)
      ensures var p := omshell(Stdin(ModifyCommands(serverAddress, sharedKey, ipAddress, macAddress)));
              (r.Done? <==> p.returncode == 0 && Contains(p.stdout, HARDWARE_TYPE))
              && (r.Raised? ==> r.error == ExternalProcessError(p.returncode, command, p.stdout))
    {
      r := RunAndCheck(Verb.Modify, ModifyCommands(serverAddress, sharedKey, ipAddress, macAddress), omshell);
    }

    /** Succeeds when the last line shows a null object or the output says "not found"
        (already removed); otherwise raises. The key may be a MAC or a legacy IP. */
    method Remove(macAddress: string, omshell: string -> ProcessResult) returns (r: Outcome)
      ensures var p := omshell(Stdin(RemoveCommands(serverAddress, serverPort, sharedKey, macAddress)));
              (r.Done? <==> p.returncode == 0
                            && (Contains(LastLine(p.stdout), NULL_OBJECT) || Contains(p.stdout, NOT_FOUND)))
              && (r.Raised? ==> r.error == ExternalProcessError(p.returncode, command, p.stdout))
    {
      r := RunAndCheck(Verb.Remove, RemoveCommands(serverAddress, serverPort, sharedKey, macAddress), omshell);
    }

    /** Succeeds when the lease was not found, or when the output lacks "invalid" and shows
        the end set to the epoch; otherwise raises. */
    method NullifyLease(ipAddress: string, omshell: string -> ProcessResult) returns (r: Outcome)
      ensures var p := omshell(Stdin(NullifyLeaseCommands(serverAddress, serverPort, sharedKey, ipAddress)));
              (r.Done? <==> p.returncode == 0
                            && (Contains(p.stdout, NOT_FOUND)
                                || (!Contains(p.stdout, INVALID) && Contains(p.stdout, ENDS_EPOCH))))
              && (r.Raised? ==> r.error == ExternalProcessError(p.returncode, command, p.stdout))
    {
      r := RunAndCheck(Verb.NullifyLease, NullifyLeaseCommands(serverAddress, serverPort, sharedKey, ipAddress), omshell);
    }
  }
}
