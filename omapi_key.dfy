/**
 * Generation of the OMAPI shared key (src/provisioningserver/dhcp/omshell.py, lines 36-96).
 *
 * `dnssec-keygen` is run in a private directory until it yields a key that omshell can
 * parse: omshell mis-reads base64 keys in which '+' or '/' stands next to "no" (in any
 * case), so such keys are thrown away and the tool is run again.
 *
 * The tool is modelled by the finite list of runs it will make: each run has an exit
 * status, a standard output and the files it writes into the directory. The file parser
 * is modelled by its result: the fields of a key file, or a file it cannot parse.
 */
module OmapiKey {
  import opened Wrappers
  import opened Octets

  // ---------------------------------------------------------------------------
  // bad_key_pattern = re.compile("[+/]no|no[+/]", flags=re.IGNORECASE)

  predicate Separator(c: char) { c == '+' || c == '/' }
  predicate LetterN(c: char) { c == 'n' || c == 'N' }
  predicate LetterO(c: char) { c == 'o' || c == 'O' }

  /** The pattern matches `key` at index `i`: "+no", "/no", "no+" or "no/", ignoring case. */
  predicate MatchAt(key: string, i: int) {
    && 0 <= i && i + 3 <= |key|
    && ((Separator(key[i]) && LetterN(key[i + 1]) && LetterO(key[i + 2]))
        || (LetterN(key[i]) && LetterO(key[i + 1]) && Separator(key[i + 2])))
  }

  /** `bad_key_pattern.search(key) is not None`. */
  predicate BadKey(key: string) {
    exists i | 0 <= i < |key| :: MatchAt(key, i)
  }

  /** ASCII lower case; the only letters that matter here are N and O. */
  function Lower(c: char): char {
    if 'A' <= c <= 'Z' then (c as int + 32) as char else c
  }

  function LowerAll(s: string): (r: string)
    ensures |r| == |s|
    ensures forall i :: 0 <= i < |s| ==> r[i] == Lower(s[i])
  {
    if s == [] then [] else [Lower(s[0])] + LowerAll(s[1..])
  }

  /** The three-character windows the pattern forbids, once the key is in lower case. */
  const BAD_WINDOWS: set<string> := {"+no", "/no", "no+", "no/"}

  /** The window of the lower-cased key at `i` is forbidden. */
  predicate BadWindowAt(key: string, i: int) {
    0 <= i <= |key| - 3 && LowerAll(key)[i..i + 3] in BAD_WINDOWS
  }

  /** Reference definition: some three-character window of the lower-cased key is forbidden. */
  predicate HasBadWindow(key: string) {
    exists i | 0 <= i <= |key| - 3 :: BadWindowAt(key, i)
  }

  lemma Window(a: char, b: char, c: char)
    ensures [a, b, c] in BAD_WINDOWS <==>
              (a == '+' && b == 'n' && c == 'o') || (a == '/' && b == 'n' && c == 'o')
              || (a == 'n' && b == 'o' && c == '+') || (a == 'n' && b == 'o' && c == '/')
  {
    var w := [a, b, c];
    assert w == "+no" <==> a == '+' && b == 'n' && c == 'o';
    assert w == "/no" <==> a == '/' && b == 'n' && c == 'o';
    assert w == "no+" <==> a == 'n' && b == 'o' && c == '+';
    assert w == "no/" <==> a == 'n' && b == 'o' && c == '/';
  }

  lemma WindowAt(key: string, i: int)
    requires 0 <= i <= |key| - 3
    ensures MatchAt(key, i) <==> BadWindowAt(key, i)
  {
    var l := LowerAll(key);
    assert l[i..i + 3] == [l[i], l[i + 1], l[i + 2]];
    Window(l[i], l[i + 1], l[i + 2]);
  }

  /** The regular expression and the window definition reject the same keys. */
  lemma BadKeyIsBadWindow(key: string)
    ensures BadKey(key) <==> HasBadWindow(key)
  {
    if BadKey(key) {
      var i :| 0 <= i < |key| && MatchAt(key, i);
      WindowAt(key, i);
    }
    if HasBadWindow(key) {
      var i :| 0 <= i <= |key| - 3 && BadWindowAt(key, i);
      WindowAt(key, i);
    }
  }

  /** Only a '+' or a '/' can make a key bad. */
  lemma KeyWithoutSeparatorsIsGood(key: string)
    requires '+' !in key && '/' !in key
    ensures !BadKey(key)
  {
    forall i | 0 <= i < |key| ensures !MatchAt(key, i) {
      if i + 3 <= |key| {
        assert key[i] in key && key[i + 2] in key;
      }
    }
  }

  lemma BadKeyExamples()
    ensures BadKey("ab+NoC") && BadKey("xnO/") && BadKey("/no")
    ensures !BadKey("n+o") && !BadKey("+n") && !BadKey("on+") && !BadKey("")
  {
    assert MatchAt("ab+NoC", 2);
    assert MatchAt("xnO/", 1);
    assert MatchAt("/no", 0);
  }

  // ---------------------------------------------------------------------------
  // The tool, the directory and one pass of the loop

  /** A key file as the key-value parser sees it. */
  datatype KeyFile = Parsed(fields: map<string, string>) | Unparsable

  /** One run of `dnssec-keygen`: exit status, standard output, files written. */
  datatype KeygenRun = KeygenRun(exitCode: int, stdout: Bytes, writes: map<string, KeyFile>)

  datatype KeygenError =
    | ProcessFailed(returncode: int)  // call_and_check on a non-zero exit
    | NothingGenerated                // "dnssec-keygen didn't generate anything"
    | NotAscii                        // decode("ascii") fails
    | KeyFileMissing(name: string)    // the named key file cannot be opened
    | KeyFieldNotFound                // "Key field not found in output from dnssec-keygen"
    | OracleExhausted                 // the modelled tool has no further run

  /** What `str.strip()` removes from the ASCII key id: space, \t, \n, \v, \f, \r and the
      separators \x1c-\x1f. */
  const ASCII_WHITESPACE: set<byte> := {9, 10, 11, 12, 13, 28, 29, 30, 31, 32}

  /** The file holding the key: the printed key id, stripped, with ".private" appended. */
  function KeyFileName(stdout: Bytes): (name: string)
    requires IsAscii(stdout)
    ensures |name| >= |".private"| && name[|name| - |".private"|..] == ".private"
  {
    Decode(Strip(stdout, ASCII_WHITESPACE)) + ".private"
  }

  /** How one pass of the loop ends, given the directory after the run. */
  datatype Attempt = Accepted(key: string) | Rejected(keyFile: string) | Stopped(error: KeygenError)

  function Examine(run: KeygenRun, files: map<string, KeyFile>): Attempt {
    if run.exitCode != 0 then Stopped(ProcessFailed(run.exitCode))
    else if run.stdout == [] then Stopped(NothingGenerated)
    else if !IsAscii(run.stdout) then Stopped(NotAscii)
    else
      var name := KeyFileName(run.stdout);
      if name !in files then Stopped(KeyFileMissing(name))
      else match files[name]
        case Unparsable => Stopped(KeyFieldNotFound)
        case Parsed(fields) =>
          if "Key" !in fields then Stopped(KeyFieldNotFound)
          else if BadKey(fields["Key"]) then Rejected(name)
          else Accepted(fields["Key"])
  }

  /** The loop's result, the directory it leaves, and how many runs it used. */
  datatype Outcome = Outcome(result: Result<string, KeygenError>, files: map<string, KeyFile>, used: nat)

  /** The reference for `run_repeated_keygen`: run the tool on the directory; keep a good key,
      stop on an error, and after a bad key delete its file and run the tool again. */
  function Keygen(runs: seq<KeygenRun>, files: map<string, KeyFile>): (o: Outcome)
    ensures o.used <= |runs|
    ensures runs != [] ==> o.used >= 1
    decreases |runs|
  {
    if runs == [] then Outcome(Failure(OracleExhausted), files, 0)
    else
      var after := files + runs[0].writes;
      match Examine(runs[0], after)
      case Accepted(key) => Outcome(Success(key), after, 1)
      case Stopped(e) => Outcome(Failure(e), after, 1)
      case Rejected(name) =>
        var rest := Keygen(runs[1..], after - {name});
        Outcome(rest.result, rest.files, rest.used + 1)
  }

  /** Some file of `files` parses and has `key` as its Key field. */
  predicate HoldsKey(files: map<string, KeyFile>, key: string) {
    exists name | name in files :: files[name].Parsed? && "Key" in files[name].fields
                                   && files[name].fields["Key"] == key
  }

  /** The key returned never matches the bad pattern, and it is the Key field of a file
      left in the directory. */
  lemma {:induction false} KeygenReturnsGoodKey(runs: seq<KeygenRun>, files: map<string, KeyFile>)
    requires Keygen(runs, files).result.Success?
    ensures !BadKey(Keygen(runs, files).result.value)
    ensures HoldsKey(Keygen(runs, files).files, Keygen(runs, files).result.value)
    decreases |runs|
  {
    var after := files + runs[0].writes;
    match Examine(runs[0], after)
    case Accepted(key) =>
      var name := KeyFileName(runs[0].stdout);
      assert name in after && after[name].Parsed? && after[name].fields["Key"] == key;
    case Stopped(e) =>
    case Rejected(name) =>
      KeygenReturnsGoodKey(runs[1..], after - {name});
  }

  /** The loop retries only after a bad key: any error ends it on the run that caused it. */
  lemma NoRetryAfterError(runs: seq<KeygenRun>, files: map<string, KeyFile>)
    requires runs != []
    ensures var o := Keygen(runs, files);
            var first := Examine(runs[0], files + runs[0].writes);
            (o.used > 1 ==> first.Rejected?)
            && (first.Stopped? ==> o.result == Failure(first.error) && o.used == 1)
  {
  }

  /** A second run is used only when the first produced a bad key, and the runs after the
      first are a loop of their own on the directory without the first key file. */
  lemma {:induction false} EarlierRunsWereRejected(runs: seq<KeygenRun>, files: map<string, KeyFile>)
    requires Keygen(runs, files).used > 1
    ensures Examine(runs[0], files + runs[0].writes).Rejected?
    ensures var name := Examine(runs[0], files + runs[0].writes).keyFile;
            Keygen(runs[1..], (files + runs[0].writes) - {name}).used == Keygen(runs, files).used - 1
  {
  }

  /** A key id "K<digit>" printed with its newline names the file "K<digit>.private". */
  lemma KeyIdName(d: byte)
    requires 48 <= d <= 57
    ensures KeyFileName([75, d, 10]) == ['K', d as int as char] + ".private"
  {
    var s: Bytes := [75, d, 10];
    assert s[..2] == [75, d];
    assert TrailingStart(s[..2], ASCII_WHITESPACE, 0) == 2;
    assert Strip(s, ASCII_WHITESPACE) == [75, d];
  }
  /** A successful ASCII run whose named file parses to a single Key field: the key is
      accepted unless it is bad, and then the file is rejected. */
  lemma ExamineParsed(run: KeygenRun, key: string)
    requires run.exitCode == 0 && run.stdout != [] && IsAscii(run.stdout)
    requires KeyFileName(run.stdout) in run.writes
    requires run.writes[KeyFileName(run.stdout)] == Parsed(map["Key" := key])
    ensures Examine(run, run.writes) ==
            if BadKey(key) then Rejected(KeyFileName(run.stdout)) else Accepted(key)
  {
  }

  /** The file a run printing the key id "K<digit>" names. */
  function KeyIdFile(d: byte): string
    requires 48 <= d <= 57
  {
    ['K', d as int as char] + ".private"
  }

  /** A successful run that prints the key id "K<digit>" and writes its file with `key`. */
  function KeyIdRun(d: byte, key: string): KeygenRun
    requires 48 <= d <= 57
  {
    KeygenRun(0, [75, d, 10], map[KeyIdFile(d) := Parsed(map["Key" := key])])
  }

  /** Such a run's key is accepted unless it is bad; a bad one rejects the run's file. */
  lemma KeyIdRunExamined(d: byte, key: string)
    requires 48 <= d <= 57
    ensures Examine(KeyIdRun(d, key), KeyIdRun(d, key).writes) ==
            if BadKey(key) then Rejected(KeyIdFile(d)) else Accepted(key)
  {
    var run := KeyIdRun(d, key);
    KeyIdName(d);
    assert run.stdout[0] < 128 && run.stdout[1] < 128 && run.stdout[2] < 128;
    ExamineParsed(run, key);
  }

  /** Such a run writes only its own file. */
  lemma KeyIdRunWrites(d: byte, key: string)
    requires 48 <= d <= 57
    ensures map[] + KeyIdRun(d, key).writes == KeyIdRun(d, key).writes
    ensures KeyIdRun(d, key).writes - {KeyIdFile(d)} == map[]
  {
  }

  /** A bad key ("ab+no") is discarded with its file, and the next run's key is returned. */
  lemma BadKeyIsRegenerated()
    ensures Keygen([KeyIdRun(49, "ab+no"), KeyIdRun(50, "abcd")], map[]) ==
            Outcome(Success("abcd"), KeyIdRun(50, "abcd").writes, 2)
  {
    var bad, good := KeyIdRun(49, "ab+no"), KeyIdRun(50, "abcd");
    assert MatchAt("ab+no", 2);
    KeyWithoutSeparatorsIsGood("abcd");
    KeyIdRunExamined(49, "ab+no");
    KeyIdRunExamined(50, "abcd");
    KeyIdRunWrites(49, "ab+no");
    KeyIdRunWrites(50, "abcd");
    assert [bad, good][1..] == [good];
    assert Keygen([good], map[]) == Outcome(Success("abcd"), good.writes, 1);
  }

  // ---------------------------------------------------------------------------
  // The imperative form

  /** The private temporary directory the tool writes into. */
  class TempDir {
    var files: map<string, KeyFile>

    constructor ()
      ensures files == map[]
    {
      files := map[];
    }

    /** `os.remove(name)`. */
    method Remove(name: string)
      modifies this
      ensures files == old(files) - {name}
    {
      files := files - {name};
    }
  }

  /** The `dnssec-keygen` tool, as the runs it has still to make. */
  class DnssecKeygen {
    var pending: seq<KeygenRun>

    constructor (runs: seq<KeygenRun>)
      ensures pending == runs
    {
      pending := runs;
    }

    /** `call_dnssec_keygen`: one run writes its files into `dir`; a non-zero exit raises,
        otherwise the standard output (the key id) is returned. */
    method Call(dir: TempDir) returns (r: Result<Bytes, KeygenError>)
      requires pending != []
      modifies this, dir
      ensures pending == old(pending)[1..]
      ensures dir.files == old(dir.files) + old(pending)[0].writes
      ensures old(pending)[0].exitCode != 0 ==> r == Failure(ProcessFailed(old(pending)[0].exitCode))
      ensures old(pending)[0].exitCode == 0 ==> r == Success(old(pending)[0].stdout)
    {
      var run := pending[0];
      pending := pending[1..];
      dir.files := dir.files + run.writes;
      if run.exitCode != 0 {
        r := Failure(ProcessFailed(run.exitCode));
      } else {
        r := Success(run.stdout);
      }
    }
  }

  /** One pass of the loop body: run the tool, read the key id, parse the key file and
      test the key; a bad key's file is removed. */
  method KeygenPass(dir: TempDir, keygen: DnssecKeygen) returns (a: Attempt)
    requires keygen.pending != []
    modifies dir, keygen
    ensures var after := old(dir.files) + old(keygen.pending)[0].writes;
            && a == Examine(old(keygen.pending)[0], after)
            && dir.files == (if a.Rejected? then after - {a.keyFile} else after)
    ensures keygen.pending == old(keygen.pending)[1..]
  {
    var keyId := keygen.Call(dir);
    if keyId.Failure? {
      return Stopped(keyId.error);
    }
    var stdout := keyId.value;
    if stdout == [] {
      return Stopped(NothingGenerated);
    }
    if !IsAscii(stdout) {
      return Stopped(NotAscii);
    }
    var keyFileName := Decode(Strip(stdout, ASCII_WHITESPACE)) + ".private";
    if keyFileName !in dir.files {
      return Stopped(KeyFileMissing(keyFileName));
    }
    var config := dir.files[keyFileName];
    if config.Unparsable? || "Key" !in config.fields {
      return Stopped(KeyFieldNotFound);
    }
    var key := config.fields["Key"];
    if BadKey(key) {
      dir.Remove(keyFileName);
      return Rejected(keyFileName);
    }
    return Accepted(key);
  }

  /** `run_repeated_keygen`: loops until the tool yields a good key, as `Keygen` specifies. */
  method RunRepeatedKeygen(dir: TempDir, keygen: DnssecKeygen) returns (r: Result<string, KeygenError>)
    modifies dir, keygen
    ensures var o := Keygen(old(keygen.pending), old(dir.files));
            r == o.result && dir.files == o.files && keygen.pending == old(keygen.pending)[o.used..]
  {
    ghost var runs := keygen.pending;
    ghost var total := Keygen(keygen.pending, dir.files);
    ghost var used: nat := 0;
    var key: Option<string> := None;
    while key == None
      invariant used <= |runs| && keygen.pending == runs[used..]
      invariant key == None ==>
                  var o := Keygen(keygen.pending, dir.files);
                  o.result == total.result && o.files == total.files && used + o.used == total.used
      invariant key != None ==>
                  total.result == Success(key.value) && dir.files == total.files && used == total.used
      decreases |keygen.pending|
    {
      if keygen.pending == [] {
        return Failure(OracleExhausted);
      }
      var attempt := KeygenPass(dir, keygen);
      assert runs[used..][1..] == runs[used + 1..];
      used := used + 1;
      match attempt
      case Stopped(e) =>
        return Failure(e);
      case Accepted(k) =>
        key := Some(k);
      case Rejected(_) =>
    }
    r := Success(key.value);
  }

  /** `generate_omapi_key`: the loop on a fresh, empty directory. */
  method GenerateOmapiKey(keygen: DnssecKeygen) returns (r: Result<string, KeygenError>)
    modifies keygen
    ensures var o := Keygen(old(keygen.pending), map[]);
            r == o.result && keygen.pending == old(keygen.pending)[o.used..]
    ensures r.Success? ==> !BadKey(r.value)
  {
    var dir := new TempDir();
    r := RunRepeatedKeygen(dir, keygen);
    if r.Success? {
      KeygenReturnsGoodKey(old(keygen.pending), map[]);
    }
  }
}
