/** The status tables of scripts/pulse.js: Markdown links and badges, the
    cell of each column, the header and row lines, and whole sections. */
module PulseTables {
  import opened Wrappers
  import opened Strings
  import opened FormEncoding

  const Org := "diplodoc-platform"
  const Branch := "master"

  // The hosts the badges point to. Longer addresses are written as
  // concatenations so that each piece stays short.
  const GitHub := "https://github.com/"
  const Shields := "https://img.shields.io/"
  const SonarCloud := "https://sonarcloud.io/"
  const RawGitHub := "https://raw." + "githubusercontent.com/"
  const SonarBadge := SonarCloud + "api/project_badges/" + "measure?project="
  const SonarSummary := SonarCloud + "summary/overall?id="
  const DynamicJson := Shields + "badge/dynamic/json?"
  const LintReleases := GitHub + Org + "/lint/releases"

  /** The JSONPath of the `@diplodoc/lint` version in a version-3 lockfile. */
  const LintVersionQuery := "$['packages']['node_modules/@diplodoc/lint'].version"

  /** A configuration row: `path`, `repo`, `npm`, `coverage` and any
      per-column override, by field name. */
  type Row = map<string, string>

  /** A field inside a template string: a missing one reads `undefined`. */
  function Field(row: Row, k: string): string {
    if k in row then row[k] else "undefined"
  }

  /** A field that JavaScript treats as true: present and not empty. */
  predicate Truthy(row: Row, k: string) {
    k in row && row[k] != ""
  }

  /** One section of the configuration, under its name. */
  datatype Section = Section(name: string, columns: seq<string>, versionBadge: string, rows: seq<Row>)

  // Links and badges

  /** `[text](href)` */
  function Link(href: string, text: string): string {
    "[" + text + "](" + href + ")"
  }

  /** An image link: `[![alt](img)](link)`. */
  function Badge(img: string, link: string, alt: string): string {
    Link(link, "![" + alt + "](" + img + ")")
  }

  /** The position of the last `c` in `s`. */
  function LastIndexOf(s: string, c: char): (r: Option<nat>)
    ensures r.Some? ==> r.value < |s| && s[r.value] == c && c !in s[r.value + 1..]
    ensures r.None? ==> c !in s
    decreases |s|
  {
    if s == [] then None
    else if s[|s| - 1] == c then Some(|s| - 1)
    else
      var r := LastIndexOf(s[..|s| - 1], c);
      assert s == s[..|s| - 1] + [s[|s| - 1]];
      if r.Some? then assert s[r.value + 1..] == s[..|s| - 1][r.value + 1..] + [s[|s| - 1]]; r
      else r
  }

  /** Reads a link back: the target is what follows the last `](`. */
  function ParseLink(s: string): Option<(string, string)> {
    if |s| >= 2 && s[0] == '[' && s[|s| - 1] == ')' then
      var inner := s[1..|s| - 1];
      match LastIndexOf(inner, ']')
      case Some(i) =>
        if i + 1 < |inner| && inner[i + 1] == '(' then Some((inner[i + 2..], inner[..i])) else None
      case None => None
    else None
  }

  /** The last `c` is the one with no `c` after it. */
  lemma LastIndexOfAt(s: string, c: char, k: nat)
    requires k < |s| && s[k] == c && c !in s[k + 1..]
    ensures LastIndexOf(s, c) == Some(k)
  {
    var r := LastIndexOf(s, c);
    assert s[k] in s;
    var j := r.value;
    forall i | j < i < |s|
      ensures s[i] != c
    {
      assert s[j + 1..][i - j - 1] == s[i];
    }
    forall i | k < i < |s|
      ensures s[i] != c
    {
      assert s[k + 1..][i - k - 1] == s[i];
    }
  }

  /** A link whose target has no `]` reads back as its target and text. */
  lemma LinkRoundTrip(href: string, text: string)
    requires ']' !in href
    ensures ParseLink(Link(href, text)) == Some((href, text))
  {
    var s := Link(href, text);
    var inner := s[1..|s| - 1];
    assert inner == text + "](" + href;
    assert inner[|text| + 1..] == "(" + href;
    LastIndexOfAt(inner, ']', |text|);
    assert inner[..|text|] == text;
    assert inner[|text| + 2..] == href;
  }

  /** A badge reads back as its link, and its text as its image and alt text. */
  lemma BadgeRoundTrip(img: string, link: string, alt: string)
    requires ']' !in link && ']' !in img
    ensures ParseLink(Badge(img, link, alt)) == Some((link, "![" + alt + "](" + img + ")"))
    ensures ParseLink(("![" + alt + "](" + img + ")")[1..]) == Some((img, alt))
  {
    LinkRoundTrip(link, "![" + alt + "](" + img + ")");
    assert ("![" + alt + "](" + img + ")")[1..] == Link(img, alt);
    LinkRoundTrip(img, alt);
  }

  // Cells

  function Workflow(repo: string, name: string): string {
    GitHub + Org + "/" + repo + "/actions/workflows/" + name + ".yml"
  }

  /** The badge of workflow `name`, for the `master` branch when `onBranch`. */
  function WorkflowBadge(repo: string, name: string, onBranch: bool): string {
    Badge(Workflow(repo, name) + (if onBranch then "/badge.svg?branch=" + Branch else "/badge.svg"), Workflow(repo, name), name)
  }

  /** The `version` column: the GitHub release, or the npm version when the
      row names a package. */
  function VersionCell(row: Row, section: Section): string {
    var repo := Field(row, "repo");
    var releases := GitHub + Org + "/" + repo + "/releases";
    if section.versionBadge == "github-release" then
      Badge(Shields + "github/v/release/" + Org + "/" + repo, releases, "version")
    else if !Truthy(row, "npm") then "-"
    else Badge(Shields + "npm/v/" + row["npm"], releases, "version")
  }

  /** The `coverage` column: the SonarCloud badge when the row asks for it. */
  function CoverageCell(row: Row): string {
    var repo := Field(row, "repo");
    if Field(row, "coverage") == "sonar" then
      Badge(SonarBadge + Org + "_" + repo + "&metric=coverage", SonarSummary + Org + "_" + repo, "Coverage")
    else "-"
  }

  /** The shields.io dynamic badge that reads the lint version from the
      repository's lockfile. */
  function InfraImage(repo: string): string {
    var lockUrl := RawGitHub + Org + "/" + repo + "/" + Branch + "/package-lock.json";
    DynamicJson + Query([("url", lockUrl), ("query", LintVersionQuery), ("label", "infra"), ("prefix", "v")])
  }

  /** The columns `cell` knows. */
  predicate KnownColumn(col: string) {
    col == "version" || col == "tests" || col == "release" || col == "security" || col == "coverage" || col == "infra"
  }

  /** `cell(row, col, sectionConfig)` */
  function Cell(row: Row, col: string, section: Section): string {
    if col in row && row[col] == "-" then "-"
    else if col == "version" then VersionCell(row, section)
    else if col == "tests" then WorkflowBadge(Field(row, "repo"), "tests", true)
    else if col == "release" then WorkflowBadge(Field(row, "repo"), "release", false)
    else if col == "security" then WorkflowBadge(Field(row, "repo"), "security", true)
    else if col == "coverage" then CoverageCell(row)
    else if col == "infra" then Badge(InfraImage(Field(row, "repo")), LintReleases, "lint")
    else "-"
  }

  /** A badge is never a bare `-`: it opens with `[`. */
  lemma BadgesOpen()
    ensures forall img, link, alt :: Badge(img, link, alt)[0] == '[' && Badge(img, link, alt) != "-"
  {
    forall img, link, alt
      ensures Badge(img, link, alt)[0] == '[' && Badge(img, link, alt) != "-"
    {
      assert Badge(img, link, alt)[0] == '[';
    }
  }

  /** A cell is `-` exactly when the row overrides the column with `-`, or
      the column is `version` of an npm-badge section and the row has no
      `npm`, or `coverage` without `sonar`, or a column `cell` does not
      know; every other cell is a badge. */
  lemma CellDash(row: Row, col: string, section: Section)
    ensures Cell(row, col, section) == "-" <==>
      || (col in row && row[col] == "-")
      || (col == "version" && section.versionBadge != "github-release" && !Truthy(row, "npm"))
      || (col == "coverage" && Field(row, "coverage") != "sonar")
      || !KnownColumn(col)
    ensures Cell(row, col, section) != "-" ==> Cell(row, col, section)[0] == '['
  {
    BadgesOpen();
    var repo := Field(row, "repo");
    if col in row && row[col] == "-" {
    } else if col == "version" {
      assert Cell(row, col, section) == VersionCell(row, section);
    } else if col == "coverage" {
      assert Cell(row, col, section) == CoverageCell(row);
    } else if col == "infra" {
      assert Cell(row, col, section) == Badge(InfraImage(repo), LintReleases, "lint");
    } else if KnownColumn(col) {
      assert Cell(row, col, section) == WorkflowBadge(repo, col, col != "release");
    }
  }

  /** Text that can sit in one table cell of one line. */
  predicate Plain(s: string) {
    '|' !in s && '\n' !in s
  }

  predicate PlainRow(row: Row) {
    forall k :: k in row ==> Plain(row[k])
  }

  lemma BadgePlain(img: string, link: string, alt: string)
    requires Plain(img) && Plain(link) && Plain(alt)
    ensures Plain(Badge(img, link, alt))
  {
  }

  // One literal per lemma: checking several long literals at once is
  // much dearer than checking each alone.
  lemma GitHubPlain() ensures Plain(GitHub) {}
  lemma ShieldsPlain() ensures Plain(Shields) {}
  lemma SonarCloudPlain() ensures Plain(SonarCloud) {}
  lemma RawGitHubPlain() ensures Plain(RawGitHub) {}
  lemma OrgPlain() ensures Plain(Org) {}
  lemma BranchPlain() ensures Plain(Branch) {}
  lemma SonarBadgePlain() ensures Plain(SonarBadge) { SonarCloudPlain(); }
  lemma SonarSummaryPlain() ensures Plain(SonarSummary) { SonarCloudPlain(); }
  lemma DynamicJsonPlain() ensures Plain(DynamicJson) { ShieldsPlain(); }
  lemma LintReleasesPlain() ensures Plain(LintReleases) { GitHubPlain(); OrgPlain(); }

  /** The lockfile badge holds no `|` and no line break: the repository
      name only reaches it form-encoded. */
  lemma InfraPlain(repo: string)
    ensures Plain(InfraImage(repo))
  {
    var lockUrl := RawGitHub + Org + "/" + repo + "/" + Branch + "/package-lock.json";
    var params := [("url", lockUrl), ("query", LintVersionQuery), ("label", "infra"), ("prefix", "v")];
    QueryFree(params, '|');
    QueryFree(params, '\n');
    DynamicJsonPlain();
  }

  lemma WorkflowUrlPlain(repo: string, name: string)
    requires Plain(repo) && Plain(name)
    ensures Plain(Workflow(repo, name))
  {
    GitHubPlain();
    OrgPlain();
  }

  lemma WorkflowImagePlain(repo: string, name: string, onBranch: bool)
    requires Plain(repo) && Plain(name)
    ensures Plain(Workflow(repo, name) + (if onBranch then "/badge.svg?branch=" + Branch else "/badge.svg"))
  {
    WorkflowUrlPlain(repo, name);
    BranchPlain();
  }

  lemma WorkflowPlain(repo: string, name: string, onBranch: bool)
    requires Plain(repo) && Plain(name)
    ensures Plain(WorkflowBadge(repo, name, onBranch))
  {
    WorkflowUrlPlain(repo, name);
    WorkflowImagePlain(repo, name, onBranch);
    BadgePlain(Workflow(repo, name) + (if onBranch then "/badge.svg?branch=" + Branch else "/badge.svg"), Workflow(repo, name), name);
  }

  lemma ReleaseUrlsPlain(repo: string, npm: string)
    requires Plain(repo) && Plain(npm)
    ensures Plain(GitHub + Org + "/" + repo + "/releases")
    ensures Plain(Shields + "github/v/release/" + Org + "/" + repo)
    ensures Plain(Shields + "npm/v/" + npm)
  {
    GitHubPlain();
    ShieldsPlain();
    OrgPlain();
  }

  lemma VersionPlain(row: Row, section: Section)
    requires PlainRow(row)
    ensures Plain(VersionCell(row, section))
  {
    var repo := Field(row, "repo");
    var npm := Field(row, "npm");
    assert Plain(repo) && Plain(npm);
    var releases := GitHub + Org + "/" + repo + "/releases";
    ReleaseUrlsPlain(repo, npm);
    BadgePlain(Shields + "github/v/release/" + Org + "/" + repo, releases, "version");
    BadgePlain(Shields + "npm/v/" + npm, releases, "version");
  }

  lemma SonarUrlsPlain(repo: string)
    requires Plain(repo)
    ensures Plain(SonarBadge + Org + "_" + repo + "&metric=coverage")
    ensures Plain(SonarSummary + Org + "_" + repo)
  {
    SonarBadgePlain();
    SonarSummaryPlain();
    OrgPlain();
  }

  lemma CoveragePlain(row: Row)
    requires PlainRow(row)
    ensures Plain(CoverageCell(row))
  {
    var repo := Field(row, "repo");
    assert Plain(repo);
    SonarUrlsPlain(repo);
    BadgePlain(SonarBadge + Org + "_" + repo + "&metric=coverage", SonarSummary + Org + "_" + repo, "Coverage");
  }

  /** A cell holds no `|` and no line break when the row's fields hold none. */
  lemma CellPlain(row: Row, col: string, section: Section)
    requires PlainRow(row)
    ensures Plain(Cell(row, col, section))
  {
    var repo := Field(row, "repo");
    assert Plain(repo);
    if col in row && row[col] == "-" {
    } else if col == "version" {
      VersionPlain(row, section);
    } else if col == "tests" || col == "release" || col == "security" {
      WorkflowPlain(repo, col, col != "release");
    } else if col == "coverage" {
      CoveragePlain(row);
    } else if col == "infra" {
      InfraPlain(repo);
      LintReleasesPlain();
      BadgePlain(InfraImage(repo), LintReleases, "lint");
    }
  }

  // Table lines

  /** `'| ' + cells.join(' | ') + ' |'` */
  function TableLine(cells: seq<string>): string {
    "| " + Join(cells, " | ") + " |"
  }

  /** The separator cells: the first left-aligned, the others centred. */
  function SepCells(n: nat): (r: seq<string>)
    ensures |r| == n
  {
    seq(n, i requires 0 <= i < n => if i == 0 then "-----------" else ":-------:")
  }

  /** `'|' + sep.join('|') + '|'` */
  function SepLine(n: nat): string {
    "|" + Join(SepCells(n), "|") + "|"
  }

  /** `tableHeader(columns)`: the head line and the separator line. */
  function TableHeader(columns: seq<string>): string {
    var heads := ["Submodule"] + columns;
    TableLine(heads) + "\n" + SepLine(|heads|)
  }

  function Cells(row: Row, columns: seq<string>, section: Section): (r: seq<string>)
    ensures |r| == |columns|
  {
    seq(|columns|, i requires 0 <= i < |columns| => Cell(row, columns[i], section))
  }

  /** The link to the row's repository, with the row's path as its text. */
  function RowLink(row: Row): string {
    Link("https://github.com/" + Org + "/" + Field(row, "repo"), Field(row, "path"))
  }

  /** `tableRow(row, columns, sectionConfig)` */
  function TableRow(row: Row, columns: seq<string>, section: Section): string {
    TableLine([RowLink(row)] + Cells(row, columns, section))
  }

  /** The cells of a line as Markdown reads them: what lies between the
      outer pipes, split at the inner ones. */
  function LineCells(line: string): seq<string> {
    var pieces := Split(line, '|');
    if |pieces| < 2 then [] else pieces[1..|pieces| - 1]
  }

  function Padded(cells: seq<string>): (r: seq<string>)
    ensures |r| == |cells|
  {
    seq(|cells|, i requires 0 <= i < |cells| => " " + cells[i] + " ")
  }

  lemma {:induction false} PadJoin(cells: seq<string>)
    requires cells != []
    ensures " " + Join(cells, " | ") + " " == Join(Padded(cells), "|")
    decreases |cells|
  {
    if |cells| > 1 {
      PadJoin(cells[1..]);
      assert Padded(cells)[1..] == Padded(cells[1..]);
      var j := Join(cells[1..], " | ");
      calc {
        " " + Join(cells, " | ") + " ";
        " " + (cells[0] + " | " + j) + " ";
        (" " + cells[0] + " ") + "|" + (" " + j + " ");
      }
    }
  }

  /** `"|" + Join(xs, "|") + "|"` splits into an empty piece, the pieces, and an empty piece. */
  lemma PipedSplit(xs: seq<string>)
    requires xs != [] && forall x :: x in xs ==> '|' !in x
    ensures Split("|" + Join(xs, "|") + "|", '|') == [""] + xs + [""]
  {
    var j := Join(xs, "|");
    JoinAppend(xs, [""], "|");
    assert Join(xs + [""], "|") == j + "|";
    SplitJoin(xs + [""], '|');
    SplitAfterPiece("", '|', j + "|");
    assert "" + "|" + (j + "|") == "|" + j + "|";
  }

  /** A table line has one cell per entry, each padded with a space on
      either side, when no entry holds a `|`. */
  lemma TableLineCells(cells: seq<string>)
    requires cells != [] && forall c :: c in cells ==> '|' !in c
    ensures LineCells(TableLine(cells)) == Padded(cells)
  {
    var ps := Padded(cells);
    PadJoin(cells);
    forall p | p in ps
      ensures '|' !in p
    {
      var i :| 0 <= i < |ps| && ps[i] == p;
      assert cells[i] in cells;
    }
    PipedSplit(ps);
    assert TableLine(cells) == "|" + Join(ps, "|") + "|";
  }

  /** The separator line has `n` cells: `-----------` first, `:-------:` after. */
  lemma SepLineCells(n: nat)
    requires n >= 1
    ensures LineCells(SepLine(n)) == SepCells(n)
  {
    PipedSplit(SepCells(n));
  }

  /** `tableHeader` is two lines of `columns.length + 1` cells: the heads and
      the alignment separators. */
  lemma HeaderShape(columns: seq<string>)
    requires forall i :: 0 <= i < |columns| ==> Plain(columns[i])
    ensures Split(TableHeader(columns), '\n') == [TableLine(["Submodule"] + columns), SepLine(|columns| + 1)]
    ensures LineCells(TableLine(["Submodule"] + columns)) == Padded(["Submodule"] + columns)
    ensures LineCells(SepLine(|columns| + 1)) == SepCells(|columns| + 1)
  {
    var heads := ["Submodule"] + columns;
    assert forall i :: 0 < i < |heads| ==> heads[i] == columns[i - 1];
    TableLineCells(heads);
    SepLineCells(|heads|);
    JoinFree(heads, " | ", '\n');
    JoinFree(SepCells(|heads|), "|", '\n');
    SplitAfterPiece(TableLine(heads), '\n', SepLine(|heads|));
    SplitNoSeparator(SepLine(|heads|), '\n');
  }

  lemma RowLinkPlain(row: Row)
    requires PlainRow(row)
    ensures Plain(RowLink(row))
  {
    GitHubPlain();
    OrgPlain();
    assert Plain(Field(row, "repo")) && Plain(Field(row, "path"));
  }

  lemma CellsPlain(row: Row, columns: seq<string>, section: Section)
    requires PlainRow(row)
    ensures forall c :: c in Cells(row, columns, section) ==> Plain(c)
  {
    var cells := Cells(row, columns, section);
    forall i | 0 <= i < |columns|
      ensures Plain(cells[i])
    {
      CellPlain(row, columns[i], section);
    }
  }

  lemma RowCellsPlain(row: Row, columns: seq<string>, section: Section)
    requires PlainRow(row)
    ensures forall c :: c in [RowLink(row)] + Cells(row, columns, section) ==> Plain(c)
  {
    RowLinkPlain(row);
    CellsPlain(row, columns, section);
  }

  /** A row line has `columns.length + 1` cells: the link to the
      repository with the row's path as text, then the column cells. */
  lemma RowShape(row: Row, columns: seq<string>, section: Section)
    requires PlainRow(row)
    ensures LineCells(TableRow(row, columns, section)) == Padded([RowLink(row)] + Cells(row, columns, section))
    ensures |LineCells(TableRow(row, columns, section))| == |columns| + 1
    ensures '\n' !in TableRow(row, columns, section)
  {
    var cells := [RowLink(row)] + Cells(row, columns, section);
    RowCellsPlain(row, columns, section);
    TableLineCells(cells);
    JoinFree(cells, " | ", '\n');
  }

  // Sections

  /** The row lines of a section, in order. */
  function RowLines(rows: seq<Row>, section: Section): (r: seq<string>)
    ensures |r| == |rows|
    decreases |rows|
  {
    if rows == [] then []
    else RowLines(rows[..|rows| - 1], section) + [TableRow(rows[|rows| - 1], section.columns, section)]
  }

  /** The title, an empty line and the table header. */
  function SectionHead(section: Section): seq<string> {
    ["## " + section.name, "", TableHeader(section.columns)]
  }

  /** The `---` and empty line that close every section but the last. */
  function SectionTail(isLast: bool): seq<string> {
    if isLast then [] else ["---", ""]
  }

  /** The `lines` array of `renderSection`. */
  function SectionLines(section: Section, isLast: bool): seq<string> {
    SectionHead(section) + RowLines(section.rows, section) + SectionTail(isLast)
  }

  function SectionText(section: Section, isLast: bool): string {
    Join(SectionLines(section, isLast), "\n")
  }

  /** `renderSection(name, sectionConfig, isLast)` */
  method RenderSection(section: Section, isLast: bool) returns (text: string)
    ensures text == SectionText(section, isLast)
  {
    var lines := SectionHead(section);
    for i := 0 to |section.rows|
      invariant lines == SectionHead(section) + RowLines(section.rows[..i], section)
    {
      assert section.rows[..i + 1][..i] == section.rows[..i];
      lines := lines + [TableRow(section.rows[i], section.columns, section)];
    }
    assert section.rows[..|section.rows|] == section.rows;
    if !isLast {
      lines := lines + ["---", ""];
    } else {
      assert lines == lines + SectionTail(isLast);
    }
    text := Join(lines, "\n");
  }

  predicate PlainSection(section: Section) {
    && Plain(section.name)
    && (forall i :: 0 <= i < |section.columns| ==> Plain(section.columns[i]))
    && forall i :: 0 <= i < |section.rows| ==> PlainRow(section.rows[i])
  }

  lemma {:induction false} RowLinesPlain(rows: seq<Row>, section: Section)
    requires forall i :: 0 <= i < |rows| ==> PlainRow(rows[i])
    ensures forall l :: l in RowLines(rows, section) ==> '\n' !in l
    decreases |rows|
  {
    if rows != [] {
      RowLinesPlain(rows[..|rows| - 1], section);
      RowShape(rows[|rows| - 1], section.columns, section);
    }
  }

  /** The section's lines with the header split into its two lines. */
  function SplitSectionLines(section: Section, isLast: bool): seq<string> {
    ["## " + section.name, "", TableLine(["Submodule"] + section.columns), SepLine(|section.columns| + 1)]
    + RowLines(section.rows, section) + SectionTail(isLast)
  }

  lemma SectionJoin(section: Section, isLast: bool)
    ensures SectionText(section, isLast) == Join(SplitSectionLines(section, isLast), "\n")
    ensures |SectionLines(section, isLast)| == 3 + |section.rows| + |SectionTail(isLast)|
  {
    var head := TableLine(["Submodule"] + section.columns);
    var sep := SepLine(|section.columns| + 1);
    var rest := RowLines(section.rows, section) + SectionTail(isLast);
    var pre := ["## " + section.name, ""];
    assert SectionLines(section, isLast) == pre + [head + "\n" + sep] + rest;
    JoinExpand(pre, head, sep, rest, "\n");
    assert pre + [head, sep] + rest == SplitSectionLines(section, isLast);
  }

  lemma HeaderLinesFree(columns: seq<string>)
    requires forall i :: 0 <= i < |columns| ==> Plain(columns[i])
    ensures '\n' !in TableLine(["Submodule"] + columns)
    ensures '\n' !in SepLine(|columns| + 1)
  {
    var heads := ["Submodule"] + columns;
    forall h | h in heads
      ensures '\n' !in h
    {
      var i :| 0 <= i < |heads| && heads[i] == h;
      if i > 0 {
        assert h == columns[i - 1];
      }
    }
    JoinFree(heads, " | ", '\n');
    forall h | h in SepCells(|heads|)
      ensures '\n' !in h
    {
    }
    JoinFree(SepCells(|heads|), "|", '\n');
  }

  lemma SectionLinesFree(section: Section, isLast: bool)
    requires PlainSection(section)
    ensures forall l :: l in SplitSectionLines(section, isLast) ==> '\n' !in l
  {
    HeaderLinesFree(section.columns);
    RowLinesPlain(section.rows, section);
    assert '\n' !in "## " + section.name;
  }

  /** A section's text is, line by line: the title, an empty line, the head
      line, the separator line, one line per row, and `---` and an empty
      line unless it is the last section. */
  lemma SectionShape(section: Section, isLast: bool)
    requires PlainSection(section)
    ensures Split(SectionText(section, isLast), '\n') ==
      ["## " + section.name, "", TableLine(["Submodule"] + section.columns), SepLine(|section.columns| + 1)]
      + RowLines(section.rows, section) + SectionTail(isLast)
    ensures |SectionLines(section, isLast)| == 3 + |section.rows| + |SectionTail(isLast)|
  {
    SectionJoin(section, isLast);
    SectionLinesFree(section, isLast);
    SplitJoin(SplitSectionLines(section, isLast), '\n');
  }
}
