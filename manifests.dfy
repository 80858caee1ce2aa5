/** The parts of a project's package.json that the scripts read. */
module Manifests {
  import opened Wrappers

  /** A dependency map that the file does not have is `None`. */
  datatype Manifest = Manifest(
    name: Option<string>,
    dependencies: Option<map<string, string>>,
    devDependencies: Option<map<string, string>>)

  /** The two kinds of dependency a manifest lists, with the manifest key
      and the `npm i` flag that saves into it. */
  datatype DepKind = Runtime | Development {
    function Key(): string {
      if Runtime? then "dependencies" else "devDependencies"
    }
    function Mode(): string {
      if Runtime? then "--save" else "--save-dev"
    }
  }

  /** `pkg[key] || {}`: a missing map reads as empty. */
  function DependencyMap(m: Manifest, kind: DepKind): map<string, string> {
    match kind
    case Runtime => m.dependencies.GetOr(map[])
    case Development => m.devDependencies.GetOr(map[])
  }
}
