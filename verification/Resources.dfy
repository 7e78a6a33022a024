/** The watched resource kinds' container path tables (internal/clusterexporter/setup.go). */
module Resources {
  import opened JsonPath
  import opened ExtractionLaws

  const POD := [["spec", "initContainers"], ["spec", "containers"], ["spec", "ephemeralContainers"]]
  const POD_TEMPLATE := [
    ["spec", "template", "spec", "initContainers"],
    ["spec", "template", "spec", "containers"]]
  const CRON_JOB := [
    ["spec", "jobTemplate", "spec", "template", "spec", "initContainers"],
    ["spec", "jobTemplate", "spec", "template", "spec", "containers"]]
  const TASK := [["spec", "steps"], ["spec", "sidecars"]]
  const TASK_RUN := [["spec", "taskSpec", "steps"], ["spec", "taskSpec", "sidecars"]]
  const KNATIVE_SERVICE := [
    ["spec", "template", "spec", "containers"],
    ["spec", "template", "spec", "initContainers"]]
  const KNATIVE_REVISION := [["spec", "containers"], ["spec", "initContainers"]]
  const WORKFLOW := [
    ["spec", "templates", "*", "container"],
    ["spec", "templates", "*", "initContainers"],
    ["spec", "templates", "*", "sidecars"],
    ["spec", "templates", "*", "script"]]
  const CRON_WORKFLOW := [
    ["spec", "workflowSpec", "templates", "*", "container"],
    ["spec", "workflowSpec", "templates", "*", "initContainers"],
    ["spec", "workflowSpec", "templates", "*", "sidecars"],
    ["spec", "workflowSpec", "templates", "*", "script"]]

  const TABLES := [
    POD, POD_TEMPLATE, CRON_JOB, TASK, TASK_RUN, KNATIVE_SERVICE, KNATIVE_REVISION, WORKFLOW, CRON_WORKFLOW]

  /** Every name used in the tables. */
  const NAMES := [
    "spec", "template", "jobTemplate", "taskSpec", "workflowSpec", "templates", "*", "container", "containers",
    "initContainers", "ephemeralContainers", "steps", "sidecars", "script"]

  lemma NamesSafe()
    ensures forall n :: 0 <= n < |NAMES| ==> Safe(NAMES[n]) && NAMES[n] != ""
  {
  }

  lemma TablesUseNames()
    ensures forall t, p, k :: 0 <= t < |TABLES| && 0 <= p < |TABLES[t]| && 0 <= k < |TABLES[t][p]| ==>
              TABLES[t][p][k] in NAMES
  {
  }

  lemma LastNames(t: nat, p: nat)
    requires t < |TABLES| && p < |TABLES[t]|
    ensures TABLES[t][p] != [] && TABLES[t][p][|TABLES[t][p]| - 1] != "*"
  {
  }

  lemma TablesHaveNoDuplicates(t: nat, p: nat, q: nat)
    requires t < |TABLES| && p < q < |TABLES[t]|
    ensures TABLES[t][p] != TABLES[t][q]
  {
    var a, b := TABLES[t][p], TABLES[t][q];
    assert a[|a| - 1] != b[|b| - 1];
  }

  /** Every table the program ships satisfies what uniqueness and the round
      trip ask of a table: safe, distinct paths, none ending in its wildcard. */
  lemma ShippedTablesAreSafe(t: nat)
    requires t < |TABLES|
    ensures SafeTable(TABLES[t]) && forall p :: 0 <= p < |TABLES[t]| ==> !EndsInWildcard(TABLES[t][p])
  {
    NamesSafe();
    TablesUseNames();
    forall p | 0 <= p < |TABLES[t]|
      ensures SafePath(TABLES[t][p]) && NoEmptyNames(TABLES[t][p]) && !EndsInWildcard(TABLES[t][p])
    {
      LastNames(t, p);
    }
    forall p, q | 0 <= p < q < |TABLES[t]|
      ensures TABLES[t][p] != TABLES[t][q]
    {
      TablesHaveNoDuplicates(t, p, q);
    }
  }
}
