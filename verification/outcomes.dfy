/** Per-host results of one fleet-wide step, the "all succeeded" gate and the
    `[OK]`/`[FAIL]` status lines both runner modules print. */
module Outcomes {
  import opened Wrappers
  import opened Strings

  /** What one task returned for one host: a failure (a failed command, or an
      `_error` that carries a message) or a success carrying the command's
      output. */
  datatype Outcome = Failed(msg: Option<string>) | Succeeded(output: string)

  /** One `host: outcome` pair of the dictionary `fab.execute` returns. */
  datatype Entry = Entry(host: string, outcome: Outcome)

  /** The results of one step, in the dictionary's iteration order. */
  type Results = seq<Entry>

  /** Width of the host column of a status line (`{:70s}`). */
  const HostWidth: nat := 70

  /** `_error(msg)`: a failure built by a task that did not get to run its
      command. */
  function Error(msg: string): (o: Outcome)
    ensures o.Failed?
    ensures o.msg == Some(msg)
  {
    Failed(Some(msg))
  }

  /** Every host of the step succeeded. */
  predicate Gate(res: Results)
  {
    forall i :: 0 <= i < |res| ==> res[i].outcome.Succeeded?
  }

  /** `_check_outcomes`: scan the results and stop at the first failure. */
  method CheckOutcomes(res: Results) returns (ok: bool)
    ensures ok <==> forall i :: 0 <= i < |res| ==> !res[i].outcome.Failed?
    ensures |res| == 0 ==> ok
    ensures ok == Gate(res)
  {
    for i := 0 to |res|
      invariant forall j :: 0 <= j < i ==> !res[j].outcome.Failed?
    {
      if res[i].outcome.Failed? {
        return false;
      }
    }
    return true;
  }

  /** The marker for a success: its output, when there is any. */
  function OkMarker(output: string): string
  {
    if output != "" then "[OK] - " + output else "[OK]"
  }

  /** The marker `ice-experiment/cc.py` prints: a failure shows its message
      when it has one. */
  function CcMarker(o: Outcome): string
  {
    match o
    case Failed(Some(m)) => "[FAIL] - " + m
    case Failed(None) => "[FAIL]"
    case Succeeded(out) => OkMarker(out)
  }

  /** The marker `ice-experiment/docker.py` prints: a failure never shows a
      message. */
  function DockerMarker(o: Outcome): string
  {
    match o
    case Failed(_) => "[FAIL]"
    case Succeeded(out) => OkMarker(out)
  }

  /** Reads a marker back; `None` for text no marker looks like. */
  function ReadMarker(s: string): Option<Outcome>
  {
    if s == "[OK]" then Some(Succeeded(""))
    else if |s| > 7 && s[..7] == "[OK] - " then Some(Succeeded(s[7..]))
    else if s == "[FAIL]" then Some(Failed(None))
    else if |s| >= 9 && s[..9] == "[FAIL] - " then Some(Failed(Some(s[9..])))
    else None
  }

  /** The outcome with any failure message dropped. */
  function Forget(o: Outcome): Outcome
  {
    if o.Failed? then Failed(None) else o
  }

  /** The cc.py marker loses nothing: the outcome can be read back from it, so
      the four cases (`[FAIL] - msg`, `[FAIL]`, `[OK] - out`, `[OK]`) are
      distinct and each carries exactly its message or output. */
  lemma CcMarkerReadBack(o: Outcome)
    ensures ReadMarker(CcMarker(o)) == Some(o)
  {
    match o
    case Failed(Some(m)) =>
      assert ("[FAIL] - " + m)[1] == 'F';
      assert ("[FAIL] - " + m)[..9] == "[FAIL] - ";
      assert ("[FAIL] - " + m)[9..] == m;
    case Failed(None) =>
    case Succeeded(out) =>
      if out != "" {
        assert ("[OK] - " + out)[..7] == "[OK] - ";
        assert ("[OK] - " + out)[7..] == out;
      }
  }

  /** The docker.py marker keeps a success's output but nothing of a failure:
      what is read back is the outcome with its message dropped. */
  lemma DockerMarkerReadBack(o: Outcome)
    ensures ReadMarker(DockerMarker(o)) == Some(Forget(o))
  {
  }

  /** The two modules print the same marker except for a failure that carries
      a message, which only cc.py shows. */
  lemma MarkersDiffer(o: Outcome)
    ensures DockerMarker(o) == CcMarker(o) <==> !(o.Failed? && o.msg.Some?)
  {
  }

  /** `'{:70s} {}'.format(host, marker)`. */
  function StatusLine(host: string, marker: string): string
  {
    PadRight(host, HostWidth) + " " + marker
  }

  /** A status line is the host left-justified to at least 70 characters
      (never truncated), one further space, then the marker. */
  lemma StatusLineLayout(host: string, marker: string)
    ensures var w := Max(|host|, HostWidth);
      var line := StatusLine(host, marker);
      && |line| == w + 1 + |marker|
      && line[..|host|] == host
      && (forall i :: |host| <= i <= w ==> line[i] == ' ')
      && line[w + 1..] == marker
  {
  }

  /** Drops the leading blanks of `s`. */
  function TrimLeft(s: string): (r: string)
    ensures |r| <= |s|
  {
    if |s| > 0 && s[0] == ' ' then TrimLeft(s[1..]) else s
  }

  /** Splits a status line back into host and marker: the host runs up to the
      first blank, the marker starts at the first non-blank after it. */
  function ReadStatusLine(line: string): (string, string)
  {
    var i := IndexOf(line, ' ');
    (line[..i], TrimLeft(line[i..]))
  }

  /** A host name without blanks. */
  predicate PlainHost(host: string)
  {
    ' ' !in host
  }

  /** A status line can be split back into the host and the marker it was
      built from: the padding never runs into either. */
  lemma StatusLineReadBack(host: string, marker: string)
    requires PlainHost(host)
    requires marker != "" && marker[0] != ' '
    ensures ReadStatusLine(StatusLine(host, marker)) == (host, marker)
  {
    var w := Max(|host|, HostWidth);
    var pad := Spaces(w - |host| + 1);
    var line := StatusLine(host, marker);
    assert line == host + pad + marker by {
      assert PadRight(host, HostWidth) + " " == host + pad;
    }
    var k := w - |host|;
    assert pad == [' '] + Spaces(k);
    assert line == host + [' '] + (Spaces(k) + marker);
    IndexOfAfter(host, ' ', Spaces(k) + marker);
    assert IndexOf(line, ' ') == |host|;
    assert line[..|host|] == host;
    assert line[|host|..] == pad + marker;
    TrimSpaces(w - |host| + 1, marker);
  }

  lemma {:induction false} TrimSpaces(n: nat, s: string)
    requires s != "" && s[0] != ' '
    ensures TrimLeft(Spaces(n) + s) == s
  {
    if n > 0 {
      assert (Spaces(n) + s)[1..] == Spaces(n - 1) + s;
      TrimSpaces(n - 1, s);
    }
  }

  /** cc.py `_print_outcomes`: one status line per entry, in order. */
  function PrintOutcomes(res: Results): (lines: seq<string>)
    ensures |lines| == |res|
  {
    seq(|res|, i requires 0 <= i < |res| => StatusLine(res[i].host, CcMarker(res[i].outcome)))
  }

  /** docker.py `_print_outcomes`: one status line per entry, in order. */
  function DockerPrintOutcomes(res: Results): (lines: seq<string>)
    ensures |lines| == |res|
  {
    seq(|res|, i requires 0 <= i < |res| => StatusLine(res[i].host, DockerMarker(res[i].outcome)))
  }

  /** Every host of the step has a blank-free name. */
  predicate PlainHosts(res: Results)
  {
    forall i :: 0 <= i < |res| ==> PlainHost(res[i].host)
  }

  /** cc.py's report is complete and faithful: line `i` names host `i`, and
      reading its marker gives back exactly outcome `i`, message and output
      included. */
  lemma PrintOutcomesReadBack(res: Results)
    requires PlainHosts(res)
    ensures var lines := PrintOutcomes(res);
      && |lines| == |res|
      && forall i :: 0 <= i < |res| ==>
           ReadStatusLine(lines[i]).0 == res[i].host
           && ReadMarker(ReadStatusLine(lines[i]).1) == Some(res[i].outcome)
  {
    forall i | 0 <= i < |res|
      ensures ReadStatusLine(PrintOutcomes(res)[i]).0 == res[i].host
      ensures ReadMarker(ReadStatusLine(PrintOutcomes(res)[i]).1) == Some(res[i].outcome)
    {
      var m := CcMarker(res[i].outcome);
      assert m[0] == '[';
      StatusLineReadBack(res[i].host, m);
      CcMarkerReadBack(res[i].outcome);
    }
  }

  /** docker.py's report names every host in order and reads back as success
      with its output, or as a bare failure. */
  lemma DockerPrintOutcomesReadBack(res: Results)
    requires PlainHosts(res)
    ensures var lines := DockerPrintOutcomes(res);
      && |lines| == |res|
      && forall i :: 0 <= i < |res| ==>
           ReadStatusLine(lines[i]).0 == res[i].host
           && ReadMarker(ReadStatusLine(lines[i]).1) == Some(Forget(res[i].outcome))
  {
    forall i | 0 <= i < |res|
      ensures ReadStatusLine(DockerPrintOutcomes(res)[i]).0 == res[i].host
      ensures ReadMarker(ReadStatusLine(DockerPrintOutcomes(res)[i]).1) == Some(Forget(res[i].outcome))
    {
      var m := DockerMarker(res[i].outcome);
      assert m[0] == '[';
      StatusLineReadBack(res[i].host, m);
      DockerMarkerReadBack(res[i].outcome);
    }
  }
}
