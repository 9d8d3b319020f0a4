// What a profile and a request say, as far as deciding anything reads them.
module Profiles {
  import opened Wrappers
  import opened Values
  import opened Expressions
  import SizingRules

  datatype SupportedOS = SupportedOS(distro: string, versions: seq<string>)

  /** `eol` is a day, counted from wherever days are counted from. */
  datatype SupportedVersion = SupportedVersion(version: string, eol: int, arch: seq<string>, supportedOs: seq<SupportedOS>)

  datatype Severity = Block | Warn

  /** A rule a profile contributed, its two expressions already trees. */
  datatype GateRule = GateRule(identifier: string, severity: Severity, expr: Node, appliesTo: Option<Node>)

  datatype Conflict = Conflict(service: string, prefix: bool)

  /** What an entry says that nothing decides on and a plan carries as it is. */
  type Carried = map<string, Value>

  /** Where packages come from. Its url and its suite are templates. */
  datatype Repository = Repository(name: string, url: string, suite: Option<string>, carried: Carried)

  /** What one operating system family installs: package names and a service, templates too. */
  datatype PackageSet = PackageSet(packages: seq<string>, service: string, repository: Option<Repository>)

  datatype ConfigurationFile = ConfigurationFile(identifier: string, destination: string, carried: Carried)

  /** A host setting, what it is to be, and the expression that reads what it is now. */
  datatype Tunable = Tunable(name: string, value: Value, observed: Option<Node>, carried: Carried)

  datatype Secret = Secret(name: string, location: string, carried: Carried)

  datatype Profile = Profile(
    engine: string, profileVersion: string, defaultVersion: string, defaultPort: int,
    defaultInstance: string, defaultLocale: Option<string>,
    gates: seq<GateRule>, minimumCores: Option<int>, minimumMemory: Option<int>,
    preferredFilesystems: seq<string>, preferredHugepages: seq<string>, maxSwappiness: Option<int>,
    conflicts: seq<Conflict>, packages: map<string, PackageSet>, sizing: seq<SizingRules.Rule>,
    configuration: seq<ConfigurationFile>, tunables: seq<Tunable>, secrets: seq<Secret>)

  datatype Request = Request(
    host: string, engine: string, version: string, chosenVersion: bool,
    environment: string, instance: string, port: int)

  /** An entry of the layout, its template filled in. */
  datatype PlannedPath = PlannedPath(
    purpose: string, path: string, minFree: Option<int>, preferSeparateFrom: seq<string>)

  predicate Matches(conflict: Conflict, name: string) {
    if conflict.prefix then conflict.service <= name else conflict.service == name
  }

  function PathNamed(paths: seq<PlannedPath>, purpose: string): Option<PlannedPath> {
    if paths == [] then None
    else if paths[|paths| - 1].purpose == purpose then Some(paths[|paths| - 1])
    else PathNamed(paths[..|paths| - 1], purpose)
  }
}
