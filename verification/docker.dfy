/** `ice-experiment/docker.py`: the container command strings, the repair of
    `docker ps` output into a JSON list, and the per-host grouping of the
    container listing. */
module Docker {
  import opened Wrappers
  import opened Strings
  import opened Outcomes

  /** The container subcommands the runners wrap. */
  datatype Verb = Run | Exec | Rm

  function VerbName(v: Verb): string
  {
    match v
    case Run => "run"
    case Exec => "exec"
    case Rm => "rm"
  }

  /** `'docker <verb> ' + ' '.join(args)` (`container_run`, `container_exec`,
      `container_rm`). */
  function ContainerCommand(v: Verb, args: seq<string>): string
  {
    "docker " + VerbName(v) + " " + Join(args, " ")
  }

  /** The command is the fixed prefix followed by the arguments: with blank-free
      arguments, splitting on blanks gives back `docker`, the verb and every
      argument in order; with none, the prefix keeps its trailing blank. */
  lemma ContainerCommandReadBack(v: Verb, args: seq<string>)
    requires Unseparated(args, ' ')
    ensures var prefix := "docker " + VerbName(v) + " ";
      ContainerCommand(v, args)[..|prefix|] == prefix
    ensures args == [] ==> ContainerCommand(v, args) == "docker " + VerbName(v) + " "
    ensures args != [] ==> Split(ContainerCommand(v, args), ' ') == ["docker", VerbName(v)] + args
  {
    if args != [] {
      var parts := ["docker", VerbName(v)] + args;
      assert Unseparated(parts, ' ') by {
        forall k | 0 <= k < |parts| ensures ' ' !in parts[k] {
          if k >= 2 {
            assert parts[k] == args[k - 2];
          }
        }
      }
      assert parts[1..] == [VerbName(v)] + args;
      assert ([VerbName(v)] + args)[1..] == args;
      assert Join([VerbName(v)] + args, " ") == VerbName(v) + " " + Join(args, " ");
      assert Join(parts, " ") == "docker" + " " + Join([VerbName(v)] + args, " ");
      assert Join(parts, " ") == ContainerCommand(v, args);
      assert [' '] == " ";
      SplitJoin(parts, ' ');
    }
  }

  /** `re.sub(r'},\]', '}]', s)`: each occurrence of `},]`, scanned left to
      right, loses its comma. */
  function DropClosingCommas(s: string): (r: string)
    ensures |r| <= |s|
    decreases |s|
  {
    if |s| >= 3 && s[..3] == "},]" then "}]" + DropClosingCommas(s[3..])
    else if |s| == 0 then ""
    else [s[0]] + DropClosingCommas(s[1..])
  }

  /** The character at `i` is a comma between `}` and `]`. */
  predicate ClosingComma(s: string, i: int)
  {
    0 < i < |s| - 1 && s[i] == ',' && s[i - 1] == '}' && s[i + 1] == ']'
  }

  /** The characters of `s` from `i` on, minus the commas between `}` and `]`:
      an independent, character-by-character description of the substitution. */
  function KeepFrom(s: string, i: nat): string
    decreases |s| - i
  {
    if i >= |s| then ""
    else (if ClosingComma(s, i) then "" else [s[i]]) + KeepFrom(s, i + 1)
  }

  /** At a `},]` the description keeps the brace and the bracket only. */
  lemma KeepFromClosing(s: string, i: nat)
    requires i + 3 <= |s| && s[i..i + 3] == "},]"
    ensures KeepFrom(s, i) == "}]" + KeepFrom(s, i + 3)
    ensures !ClosingComma(s, i + 3)
  {
    assert s[i] == '}' && s[i + 1] == ',' && s[i + 2] == ']';
    assert !ClosingComma(s, i) && ClosingComma(s, i + 1) && !ClosingComma(s, i + 2);
    assert KeepFrom(s, i) == [s[i]] + KeepFrom(s, i + 1);
    assert KeepFrom(s, i + 1) == KeepFrom(s, i + 2);
    assert KeepFrom(s, i + 2) == [s[i + 2]] + KeepFrom(s, i + 3);
  }

  /** Elsewhere the description keeps the character and moves on, and the
      next character is no closing comma. */
  lemma KeepFromOther(s: string, i: nat)
    requires i < |s| && !ClosingComma(s, i)
    requires !(i + 3 <= |s| && s[i..i + 3] == "},]")
    ensures KeepFrom(s, i) == [s[i]] + KeepFrom(s, i + 1)
    ensures !ClosingComma(s, i + 1)
  {
  }

  /** The substitution keeps every character except the commas that sit
      between `}` and `]`. */
  lemma {:induction false} DropClosingCommasKeeps(s: string, i: nat)
    requires i <= |s|
    requires !ClosingComma(s, i)
    ensures DropClosingCommas(s[i..]) == KeepFrom(s, i)
    decreases |s| - i
  {
    var t := s[i..];
    if i == |s| {
    } else if |t| >= 3 && t[..3] == "},]" {
      assert s[i..i + 3] == t[..3];
      assert t[3..] == s[i + 3..];
      KeepFromClosing(s, i);
      DropClosingCommasKeeps(s, i + 3);
    } else {
      assert |t| >= 3 ==> s[i..i + 3] == t[..3];
      assert t[1..] == s[i + 1..];
      KeepFromOther(s, i);
      DropClosingCommasKeeps(s, i + 1);
    }
  }

  /** A string ending in `]` still ends in `]` after the substitution. */
  lemma {:induction false} DropClosingCommasLast(s: string)
    requires |s| > 0 && s[|s| - 1] == ']'
    ensures |DropClosingCommas(s)| > 0 && DropClosingCommas(s)[|DropClosingCommas(s)| - 1] == ']'
    decreases |s|
  {
    if |s| >= 3 && s[..3] == "},]" {
      if |s| > 3 {
        DropClosingCommasLast(s[3..]);
      }
    } else if |s| > 1 {
      DropClosingCommasLast(s[1..]);
    }
  }

  /** A string ending in `},]` ends in `}]` after the substitution. */
  lemma {:induction false} DropClosingCommasTail(s: string)
    requires |s| >= 3 && s[|s| - 3..] == "},]"
    ensures var r := DropClosingCommas(s); |r| >= 2 && r[|r| - 2..] == "}]"
    decreases |s|
  {
    if s[..3] == "},]" {
      if |s| > 3 {
        assert s[1] == ',' && s[2] == ']';
        assert s[|s| - 3] == '}' && s[|s| - 2] == ',';
        assert |s| >= 6;
        assert s[3..][|s[3..]| - 3..] == s[|s| - 3..];
        DropClosingCommasTail(s[3..]);
      }
    } else {
      assert |s| > 3;
      assert s[1..][|s[1..]| - 3..] == s[|s| - 3..];
      DropClosingCommasTail(s[1..]);
    }
  }

  /** `ps`: wrap one host's `docker ps` output, one `{...},` object per
      container, in brackets and drop the comma after the last object. */
  function RepairPsOutput(out: string): (r: string)
    ensures |r| >= 2 && r[0] == '[' && r[|r| - 1] == ']'
    ensures r == KeepFrom("[" + out + "]", 0)
    ensures |out| >= 2 && out[|out| - 2..] == "}," ==> r[|r| - 2..] == "}]"
  {
    RepairFacts(out);
    DropClosingCommas("[" + out + "]")
  }

  lemma RepairFacts(out: string)
    ensures var r := DropClosingCommas("[" + out + "]");
      && |r| >= 2 && r[0] == '[' && r[|r| - 1] == ']'
      && r == KeepFrom("[" + out + "]", 0)
      && (|out| >= 2 && out[|out| - 2..] == "}," ==> r[|r| - 2..] == "}]")
  {
    var s := "[" + out + "]";
    assert s[0..] == s;
    DropClosingCommasKeeps(s, 0);
    DropClosingCommasLast(s);
    assert |s| >= 3 ==> s[..3][0] == '[';
    assert DropClosingCommas(s) == "[" + DropClosingCommas(s[1..]);
    if |out| >= 2 && out[|out| - 2..] == "}," {
      assert s[|s| - 3..] == "},]";
      DropClosingCommasTail(s);
    }
  }

  /** No container listed: the repaired output is the empty JSON list. */
  lemma RepairEmpty()
    ensures RepairPsOutput("") == "[]"
  {
  }

  /** A parsed JSON object, keys to string values. */
  type JsonObject = map<string, string>

  /** The cells of one table row, keyed by column. */
  type Cells = map<string, string>

  /** The keys of the `ps` table's columns, in column order; their headers
      and widths only affect rendering. */
  const PsColumns: seq<string> := ["name", "image", "ports"]

  /** The column keys as a set, the form `RowsOf` compares a row's keys with. */
  function ColumnKeys(): set<string>
  {
    set k | k in PsColumns
  }

  /** A row of the table: a comment spanning the row, or one cell per column. */
  datatype Row = Comment(text: string) | Data(cells: Cells)

  /** `container[k]` for every column `k` raises no `KeyError`. */
  predicate HasColumns(c: JsonObject)
  {
    "name" in c && "image" in c && "ports" in c
  }

  /** `cells` are the rows of containers `cs`: one per container, in order,
      each with exactly the table's columns, valued as in the container. */
  predicate RowsOf(cells: seq<Cells>, cs: seq<JsonObject>)
  {
    && |cells| == |cs|
    && forall j :: 0 <= j < |cs| ==>
         cells[j].Keys == ColumnKeys() && forall k :: k in cells[j] ==> k in cs[j] && cells[j][k] == cs[j][k]
  }

  /** The row of each container, or `None` when some container lacks a column
      (the `KeyError` that ends `ps`). */
  function ContainerCells(cs: seq<JsonObject>): (r: Option<seq<Cells>>)
    ensures r.Some? <==> forall j :: 0 <= j < |cs| ==> HasColumns(cs[j])
    ensures r.Some? ==> RowsOf(r.value, cs)
    decreases |cs|
  {
    if |cs| == 0 then Some([])
    else if !HasColumns(cs[0]) then None
    else match ContainerCells(cs[1..])
      case None => None
      case Some(rest) =>
        Some([ContainerRow(cs[0])] + rest)
  }

  /** The columns are keyed `name`, `image` and `ports`. */
  lemma ColumnKeysAre()
    ensures ColumnKeys() == {"name", "image", "ports"}
  {
    assert PsColumns[0] == "name" && PsColumns[1] == "image" && PsColumns[2] == "ports";
  }

  /** One container's row: exactly the table's columns, valued as in the
      container. */
  function ContainerRow(c: JsonObject): (cells: Cells)
    requires HasColumns(c)
    ensures cells.Keys == ColumnKeys()
    ensures forall k :: k in cells ==> k in c && cells[k] == c[k]
  {
    ColumnKeysAre();
    map["name" := c["name"], "image" := c["image"], "ports" := c["ports"]]
  }

  /** One host's listing: its containers' cells. */
  datatype HostCells = HostCells(host: string, cells: seq<Cells>)

  /** `add_comment_row('Host: <key>')` then one `add_row` per container, host by
      host. */
  function HostRows(groups: seq<HostCells>): seq<Row>
    decreases |groups|
  {
    if |groups| == 0 then []
    else [Comment("Host: " + groups[0].host)]
         + DataRows(groups[0].cells)
         + HostRows(groups[1..])
  }

  /** Number of data rows before the next comment. */
  function LeadingData(rows: seq<Row>): (n: nat)
    ensures n <= |rows|
    ensures forall j :: 0 <= j < n ==> rows[j].Data?
    ensures n < |rows| ==> rows[n].Comment?
    decreases |rows|
  {
    if |rows| == 0 || rows[0].Comment? then 0 else 1 + LeadingData(rows[1..])
  }

  /** Reads a table back as sections: each comment with the data rows under it. */
  function Regroup(rows: seq<Row>): seq<(string, seq<Cells>)>
    decreases |rows|
  {
    if |rows| == 0 then []
    else if rows[0].Data? then Regroup(rows[1..])
    else
      var n := LeadingData(rows[1..]);
      [(rows[0].text, SectionCells(rows[1..1 + n]))] + Regroup(rows[1 + n..])
  }

  /** The cells of a run of data rows. */
  function SectionCells(rows: seq<Row>): (cells: seq<Cells>)
    requires forall j :: 0 <= j < |rows| ==> rows[j].Data?
    ensures |cells| == |rows|
    ensures forall j :: 0 <= j < |rows| ==> cells[j] == rows[j].cells
  {
    seq(|rows|, j requires 0 <= j < |rows| => rows[j].cells)
  }

  lemma {:induction false} LeadingDataOf(cells: seq<Cells>, rest: seq<Row>)
    requires rest == [] || rest[0].Comment?
    ensures LeadingData(DataRows(cells) + rest) == |cells|
    decreases |cells|
  {
    var d := DataRows(cells);
    if |cells| > 0 {
      var d' := DataRows(cells[1..]);
      assert (d + rest)[1..] == d' + rest;
      LeadingDataOf(cells[1..], rest);
    }
  }

  /** The data rows of a list of cells. */
  function DataRows(cells: seq<Cells>): (rows: seq<Row>)
    ensures |rows| == |cells|
    ensures forall j :: 0 <= j < |cells| ==> rows[j] == Data(cells[j])
  {
    seq(|cells|, j requires 0 <= j < |cells| => Data(cells[j]))
  }

  /** The sections a table of host groups should read back as: one per host,
      headed `Host: <key>`, holding exactly that host's cells. */
  function Sections(groups: seq<HostCells>): (r: seq<(string, seq<Cells>)>)
    ensures |r| == |groups|
    decreases |groups|
  {
    if |groups| == 0 then []
    else [("Host: " + groups[0].host, groups[0].cells)] + Sections(groups[1..])
  }

  /** Section `i` belongs to host `i`. */
  lemma {:induction false} SectionsAt(groups: seq<HostCells>, i: nat)
    requires i < |groups|
    ensures Sections(groups)[i] == ("Host: " + groups[i].host, groups[i].cells)
    decreases i
  {
    if i > 0 {
      SectionsAt(groups[1..], i - 1);
    }
  }

  /** Reading a table that starts with a comment takes the data rows under it
      as that comment's section and goes on after them. */
  lemma RegroupHead(rows: seq<Row>)
    requires |rows| > 0 && rows[0].Comment?
    ensures var n := LeadingData(rows[1..]);
      Regroup(rows) == [(rows[0].text, SectionCells(rows[1..1 + n]))] + Regroup(rows[1 + n..])
  {
  }

  /** The layout of a comment, its data rows and a table starting at a comment. */
  lemma SectionLayout(text: string, cells: seq<Cells>, rest: seq<Row>)
    requires rest == [] || rest[0].Comment?
    ensures var rows := [Comment(text)] + DataRows(cells) + rest;
      && LeadingData(rows[1..]) == |cells|
      && rows[1..1 + |cells|] == DataRows(cells)
      && rows[1 + |cells|..] == rest
  {
    var d := DataRows(cells);
    var rows := [Comment(text)] + d + rest;
    assert rows[1..] == d + rest;
    LeadingDataOf(cells, rest);
  }

  /** The cells of the data rows of some cells are those cells. */
  lemma SectionCellsOfDataRows(cells: seq<Cells>)
    ensures SectionCells(DataRows(cells)) == cells
  {
  }

  /** A comment, its data rows and a table starting at a comment read back as
      that one section followed by the rest's sections. */
  lemma RegroupSection(text: string, cells: seq<Cells>, rest: seq<Row>)
    requires rest == [] || rest[0].Comment?
    ensures Regroup([Comment(text)] + DataRows(cells) + rest) == [(text, cells)] + Regroup(rest)
  {
    SectionLayout(text, cells, rest);
    SectionCellsOfDataRows(cells);
    RegroupHead([Comment(text)] + DataRows(cells) + rest);
  }

  /** The table is exactly one section per host, in order, headed
      `Host: <key>` and holding that host's container rows and nothing else. */
  lemma {:induction false} HostRowsRegroup(groups: seq<HostCells>)
    ensures HostRows(groups) == [] || HostRows(groups)[0].Comment?
    ensures Regroup(HostRows(groups)) == Sections(groups)
    decreases |groups|
  {
    if |groups| > 0 {
      var g := groups[0];
      var rest := HostRows(groups[1..]);
      assert HostRows(groups) == [Comment("Host: " + g.host)] + DataRows(g.cells) + rest;
      RegroupSection("Host: " + g.host, g.cells, rest);
      HostRowsRegroup(groups[1..]);
    }
  }

  /** The hosts whose `docker ps` failed, and the others, in order. */
  function FailedEntries(res: Results): (r: Results)
    ensures forall i :: 0 <= i < |r| ==> r[i].outcome.Failed?
    decreases |res|
  {
    if |res| == 0 then []
    else (if res[0].outcome.Failed? then [res[0]] else []) + FailedEntries(res[1..])
  }

  function SucceededEntries(res: Results): (r: Results)
    ensures forall i :: 0 <= i < |r| ==> r[i].outcome.Succeeded?
    ensures |r| + |FailedEntries(res)| == |res|
    decreases |res|
  {
    if |res| == 0 then []
    else (if res[0].outcome.Succeeded? then [res[0]] else []) + SucceededEntries(res[1..])
  }

  /** A host's parsed listing. */
  datatype Listing = Listing(host: string, containers: seq<JsonObject>)

  /** The first loop of `ps`: failed hosts get a `[FAIL]` line and are skipped;
      the others' output is repaired and parsed. `parse` stands for
      `json.loads`; `None` is the exception that ends `ps` there. */
  datatype Parsed = Parsed(failLines: seq<string>, listings: seq<Listing>, crashed: bool)

  function ParseHosts(res: Results, parse: string -> Option<seq<JsonObject>>): Parsed
    decreases |res|
  {
    if |res| == 0 then Parsed([], [], false)
    else
      var e := res[0];
      if e.outcome.Failed? then
        var rest := ParseHosts(res[1..], parse);
        Parsed([StatusLine(e.host, "[FAIL]")] + rest.failLines, rest.listings, rest.crashed)
      else match parse(RepairPsOutput(e.outcome.output))
        case None => Parsed([], [], true)
        case Some(cs) =>
          var rest := ParseHosts(res[1..], parse);
          Parsed(rest.failLines, [Listing(e.host, cs)] + rest.listings, rest.crashed)
  }

  /** Every successful host's output parses. */
  predicate AllParse(res: Results, parse: string -> Option<seq<JsonObject>>)
  {
    forall i :: 0 <= i < |res| ==> ParsesIfSucceeded(res[i], parse)
  }

  predicate ParsesIfSucceeded(e: Entry, parse: string -> Option<seq<JsonObject>>)
  {
    e.outcome.Succeeded? ==> parse(RepairPsOutput(e.outcome.output)).Some?
  }

  lemma AllParseCons(res: Results, parse: string -> Option<seq<JsonObject>>)
    requires |res| > 0
    ensures AllParse(res, parse) <==> ParsesIfSucceeded(res[0], parse) && AllParse(res[1..], parse)
  {
  }

  /** `ps` stops at a parse error exactly when some successful host's repaired
      output does not parse. */
  lemma {:induction false} ParseHostsCrash(res: Results, parse: string -> Option<seq<JsonObject>>)
    ensures ParseHosts(res, parse).crashed <==> !AllParse(res, parse)
    decreases |res|
  {
    if |res| > 0 {
      AllParseCons(res, parse);
      ParseHostsCrash(res[1..], parse);
    }
  }

  /** Without a parse error, failed hosts get exactly their `[FAIL]` line, the
      line `_print_outcomes` prints for them, in order. */
  lemma {:induction false} ParseHostsFailLines(res: Results, parse: string -> Option<seq<JsonObject>>)
    ensures !ParseHosts(res, parse).crashed ==>
      ParseHosts(res, parse).failLines == DockerPrintOutcomes(FailedEntries(res))
    decreases |res|
  {
    if |res| > 0 && !ParseHosts(res, parse).crashed {
      var e := res[0];
      ParseHostsFailLines(res[1..], parse);
      if e.outcome.Failed? {
        assert FailedEntries(res) == [e] + FailedEntries(res[1..]);
        assert DockerMarker(e.outcome) == "[FAIL]";
        assert DockerPrintOutcomes(FailedEntries(res)) ==
          [StatusLine(e.host, "[FAIL]")] + DockerPrintOutcomes(FailedEntries(res[1..]));
      } else {
        assert FailedEntries(res) == FailedEntries(res[1..]);
      }
    }
  }

  /** Listing `i` belongs to successful host `i` and holds what its
      repaired output parsed to. */
  predicate ListingOf(l: Listing, e: Entry, parse: string -> Option<seq<JsonObject>>)
  {
    e.outcome.Succeeded? && l.host == e.host && parse(RepairPsOutput(e.outcome.output)) == Some(l.containers)
  }

  /** Without a parse error, every successful host, and only those, is
      listed, in order. */
  lemma {:induction false} ParseHostsListings(res: Results, parse: string -> Option<seq<JsonObject>>)
    ensures var p := ParseHosts(res, parse);
      !p.crashed ==>
        && |p.listings| == |SucceededEntries(res)|
        && forall i :: 0 <= i < |p.listings| ==> ListingOf(p.listings[i], SucceededEntries(res)[i], parse)
    decreases |res|
  {
    if |res| > 0 && !ParseHosts(res, parse).crashed {
      var e := res[0];
      ParseHostsListings(res[1..], parse);
      if e.outcome.Failed? {
        assert SucceededEntries(res) == SucceededEntries(res[1..]);
      } else {
        assert SucceededEntries(res) == [e] + SucceededEntries(res[1..]);
      }
    }
  }

  /** What `ps` shows: the `[FAIL]` lines, then the table's rows; or, after a
      parse error or a missing column, only the lines printed before it. */
  datatype PsRun = Listed(failLines: seq<string>, rows: seq<Row>) | Crashed(failLines: seq<string>)

  /** Each listing's cells, or `None` when a container lacks a column. */
  function ListingCells(ls: seq<Listing>): (r: Option<seq<HostCells>>)
    ensures r.Some? ==> |r.value| == |ls|
    ensures r.Some? ==> forall i :: 0 <= i < |ls| ==>
      r.value[i].host == ls[i].host && Some(r.value[i].cells) == ContainerCells(ls[i].containers)
    ensures r.None? ==> exists i :: 0 <= i < |ls| && ContainerCells(ls[i].containers).None?
    decreases |ls|
  {
    if |ls| == 0 then Some([])
    else match ContainerCells(ls[0].containers)
      case None => None
      case Some(cells) =>
        match ListingCells(ls[1..])
        case None => None
        case Some(rest) => Some([HostCells(ls[0].host, cells)] + rest)
  }

  /** `ps`. */
  function Ps(res: Results, parse: string -> Option<seq<JsonObject>>): PsRun
  {
    var p := ParseHosts(res, parse);
    if p.crashed then Crashed(p.failLines)
    else match ListingCells(p.listings)
      case None => Crashed(p.failLines)
      case Some(groups) => Listed(p.failLines, HostRows(groups))
  }

  /** When `ps` lists, failed hosts appear only as `[FAIL]` lines and the table
      has one section per successful host, in order, headed `Host: <key>`,
      with one row per parsed container holding exactly its name, image and
      ports. */
  lemma PsListsSucceededHosts(res: Results, parse: string -> Option<seq<JsonObject>>)
    ensures var r := Ps(res, parse);
      r.Listed? ==>
        && r.failLines == DockerPrintOutcomes(FailedEntries(res))
        && (r.rows == [] || r.rows[0].Comment?)
        && var sections := Regroup(r.rows);
           var ok := SucceededEntries(res);
           && |sections| == |ok|
           && forall i :: 0 <= i < |ok| ==>
                && sections[i].0 == "Host: " + ok[i].host
                && exists cs :: parse(RepairPsOutput(ok[i].outcome.output)) == Some(cs)
                     && RowsOf(sections[i].1, cs)
  {
    var r := Ps(res, parse);
    if r.Listed? {
      var p := ParseHosts(res, parse);
      ParseHostsFailLines(res, parse);
      ParseHostsListings(res, parse);
      var groups := ListingCells(p.listings).value;
      assert r.rows == HostRows(groups);
      HostRowsRegroup(groups);
      var sections := Regroup(r.rows);
      var ok := SucceededEntries(res);
      forall i | 0 <= i < |ok|
        ensures sections[i].0 == "Host: " + ok[i].host
        ensures exists cs :: parse(RepairPsOutput(ok[i].outcome.output)) == Some(cs) && RowsOf(sections[i].1, cs)
      {
        var cs := p.listings[i].containers;
        assert ListingOf(p.listings[i], ok[i], parse);
        SectionsAt(groups, i);
        assert sections[i] == ("Host: " + groups[i].host, groups[i].cells);
        assert ContainerCells(cs) == Some(groups[i].cells);
        assert parse(RepairPsOutput(ok[i].outcome.output)) == Some(cs) && RowsOf(sections[i].1, cs);
      }
    }
  }

  /** `ps` crashes exactly when a successful host's output does not parse or a
      parsed container lacks one of the columns. */
  lemma PsCrashes(res: Results, parse: string -> Option<seq<JsonObject>>)
    ensures Ps(res, parse).Crashed? <==>
      || !AllParse(res, parse)
      || exists l :: l in ParseHosts(res, parse).listings && ContainerCells(l.containers).None?
  {
    ParseHostsCrash(res, parse);
    var p := ParseHosts(res, parse);
    if !p.crashed && ListingCells(p.listings).Some? {
      var groups := ListingCells(p.listings).value;
      forall l | l in p.listings ensures ContainerCells(l.containers).Some? {
        var i :| 0 <= i < |p.listings| && p.listings[i] == l;
      }
    }
  }
}
