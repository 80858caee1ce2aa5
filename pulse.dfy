/** The status page of scripts/pulse.js: the configured sections, the
    fixed header, and the document that joins them with the dependency
    graph. */
module Pulse {
  import opened Wrappers
  import opened Strings
  import opened Manifests
  import opened PulseTables
  import PulseGraph

  /** `SECTIONS`, in the order of `Object.keys`. */
  const Sections: seq<Section> := [
    Section("packages", ["version", "tests", "release", "security", "coverage", "infra"], "npm", [
      map["path" := "packages/cli", "repo" := "cli", "npm" := "@diplodoc/cli", "coverage" := "sonar"],
      map["path" := "packages/client", "repo" := "client", "npm" := "@diplodoc/client"],
      map["path" := "packages/components", "repo" := "components", "npm" := "@diplodoc/components"],
      map["path" := "packages/directive", "repo" := "directive", "npm" := "@diplodoc/directive", "coverage" := "sonar"],
      map["path" := "packages/liquid", "repo" := "liquid", "npm" := "@diplodoc/liquid", "coverage" := "sonar"],
      map["path" := "packages/sentenizer", "repo" := "sentenizer", "npm" := "@diplodoc/sentenizer", "coverage" := "sonar"],
      map["path" := "packages/transform", "repo" := "transform", "npm" := "@diplodoc/transform", "coverage" := "sonar"],
      map["path" := "packages/translation", "repo" := "translation", "npm" := "@diplodoc/translation", "coverage" := "sonar"],
      map["path" := "packages/utils", "repo" := "utils", "npm" := "@diplodoc/utils", "coverage" := "sonar"],
      map["path" := "packages/yfmlint", "repo" := "yfmlint", "npm" := "@diplodoc/yfmlint", "coverage" := "sonar"]
    ]),
    Section("extensions", ["version", "tests", "release", "security", "coverage", "infra"], "npm", [
      map["path" := "extensions/algolia", "repo" := "algolia-extension", "npm" := "@diplodoc/algolia-extension", "coverage" := "sonar"],
      map["path" := "extensions/color", "repo" := "color-extension", "npm" := "@diplodoc/color-extension", "coverage" := "sonar"],
      map["path" := "extensions/cut", "repo" := "cut-extension", "npm" := "@diplodoc/cut-extension", "coverage" := "sonar"],
      map["path" := "extensions/file", "repo" := "file-extension", "npm" := "@diplodoc/file-extension", "coverage" := "sonar"],
      map["path" := "extensions/folding-headings", "repo" := "folding-headings-extension", "npm" := "@diplodoc/folding-headings-extension", "coverage" := "sonar"],
      map["path" := "extensions/html", "repo" := "html-extension", "npm" := "@diplodoc/html-extension", "coverage" := "sonar"],
      map["path" := "extensions/latex", "repo" := "latex-extension", "npm" := "@diplodoc/latex-extension", "coverage" := "sonar"],
      map["path" := "extensions/mermaid", "repo" := "mermaid-extension", "npm" := "@diplodoc/mermaid-extension", "coverage" := "sonar"],
      map["path" := "extensions/openapi", "repo" := "openapi-extension", "npm" := "@diplodoc/openapi-extension", "coverage" := "sonar"],
      map["path" := "extensions/page-constructor", "repo" := "page-constructor-extension", "npm" := "@diplodoc/page-constructor-extension", "coverage" := "sonar"],
      map["path" := "extensions/quote-link", "repo" := "quote-link-extension", "npm" := "@diplodoc/quote-link-extension", "coverage" := "sonar"],
      map["path" := "extensions/search", "repo" := "search-extension", "npm" := "@diplodoc/search-extension", "coverage" := "sonar"],
      map["path" := "extensions/tabs", "repo" := "tabs-extension", "npm" := "@diplodoc/tabs-extension", "coverage" := "sonar"]
    ]),
    Section("devops", ["version", "tests", "release", "security"], "npm", [
      map["path" := "devops/babel-preset", "repo" := "babel-preset", "npm" := "@diplodoc/babel-preset", "tests" := "-"],
      map["path" := "devops/lint", "repo" := "lint", "npm" := "@diplodoc/lint", "lint" := "-"],
      map["path" := "devops/package-template", "repo" := "package-template", "version" := "-", "tests" := "-", "release" := "-"],
      map["path" := "devops/testpack", "repo" := "testpack", "npm" := "@diplodoc/testpack"],
      map["path" := "devops/tsconfig", "repo" := "tsconfig", "npm" := "@diplodoc/tsconfig", "tests" := "-"]
    ]),
    Section("actions", ["version", "release", "security"], "github-release", [
      map["path" := "actions/docs-build", "repo" := "docs-build-action"],
      map["path" := "actions/docs-clean", "repo" := "docs-clean-action"],
      map["path" := "actions/docs-message", "repo" := "docs-message-action"],
      map["path" := "actions/docs-release", "repo" := "docs-release-action"],
      map["path" := "actions/docs-upload", "repo" := "docs-upload-action"]
    ])
  ]

  /** The lines of `header`; it ends with a line break after the last. */
  const HeaderLines: seq<string> := [
    "# Pulse \U{2014} status of submodules (master)",
    "",
    "Status badges for workflows created from [@diplodoc/lint](devops/lint) scaffolding (`lint init` / `lint update`).  ",
    "Branch: **master**. Release badge reflects last run (event: `release: published` or `workflow_dispatch`).",
    "",
    "Workflows: [tests](.github/workflows/tests.yml) \U{B7} [release](.github/workflows/release.yml) \U{B7} [security](.github/workflows/security.yml)",
    "",
    "**Version:** npm latest for packages/extensions/devops (link \U{2192} GitHub Releases); GitHub release for actions.",
    "",
    "---"
  ]

  const Header: string := Join(HeaderLines, "\n") + "\n"

  /** The rendered sections, the last one without the closing `---`. */
  function SectionTexts(sections: seq<Section>): (r: seq<string>)
    ensures |r| == |sections|
  {
    seq(|sections|, i requires 0 <= i < |sections| => SectionText(sections[i], i == |sections| - 1))
  }

  /** `body` */
  function Body(sections: seq<Section>): string {
    Join(SectionTexts(sections), "\n")
  }

  /** `out`: the header, the body without trailing white space, the graph
      after a rule when there is one, and a final line break. */
  function Document(sections: seq<Section>, graph: string): string {
    Header + "\n" + TrimEnd(Body(sections)) + (if graph != "" then "\n\n---\n\n" + graph else "") + "\n"
  }

  /** The whole script, with the graph and the readable manifests given. */
  method RenderPulse(graph: Option<PulseGraph.Graph>, manifests: map<string, Manifest>) returns (out: string)
    ensures out == Document(Sections, PulseGraph.DepsGraph(graph, manifests, Sections))
  {
    var depsGraph := PulseGraph.RenderDepsGraph(graph, manifests, Sections);
    out := Document(Sections, depsGraph);
  }

  /** A table line ends with `|`. */
  lemma TableLineEnds(cells: seq<string>)
    ensures EndsWith(TableLine(cells), "|")
  {
  }

  /** The last section's text ends with `|`: its last row, or its
      separator line when it has no rows. */
  lemma LastSectionEnds(section: Section)
    ensures EndsWith(SectionText(section, true), "|")
  {
    var lines := SectionLines(section, true);
    assert lines == SectionHead(section) + RowLines(section.rows, section);
    JoinEndsWith(lines, "\n");
    var last := lines[|lines| - 1];
    if section.rows == [] {
      var heads := ["Submodule"] + section.columns;
      assert last == TableHeader(section.columns);
      assert last == TableLine(heads) + "\n" + SepLine(|heads|);
    } else {
      var n := |section.rows|;
      assert last == TableRow(section.rows[n - 1], section.columns, section);
    }
    assert EndsWith(last, "|");
    EndsWithTrans(SectionText(section, true), last, "|");
  }

  lemma EndsWithTrans(s: string, t: string, u: string)
    requires EndsWith(s, t) && EndsWith(t, u)
    ensures EndsWith(s, u)
  {
    assert s[|s| - |u|..] == t[|t| - |u|..];
  }

  /** `trimEnd` removes nothing from the body: it ends with the `|` of the
      last table. */
  lemma BodyTrimmed(sections: seq<Section>)
    requires sections != []
    ensures TrimEnd(Body(sections)) == Body(sections)
  {
    var texts := SectionTexts(sections);
    LastSectionEnds(sections[|sections| - 1]);
    JoinEndsWith(texts, "\n");
    EndsWithTrans(Body(sections), texts[|texts| - 1], "|");
    PipeEndKept(Body(sections));
  }

  lemma PipeEndKept(s: string)
    requires EndsWith(s, "|")
    ensures TrimEnd(s) == s
  {
    assert s[|s| - 1] == '|';
    assert !IsJsWhitespace('|');
  }

  /** The document is the header, the body as rendered, the graph after a
      rule when there is one, and a final line break. */
  lemma DocumentShape(sections: seq<Section>, graph: string)
    requires sections != []
    ensures Document(sections, graph) ==
      Header + "\n" + Body(sections) + (if graph != "" then "\n\n---\n\n" + graph else "") + "\n"
  {
    BodyTrimmed(sections);
  }
}
