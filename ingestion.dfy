/**
 The decision `main` takes for one storage event, shared by the three
 handlers: read the bucket and object name, resolve the table, and either
 skip the event or submit one append load of `gs://bucket/name` into
 `project.dataset.table` with the configuration the handler builds, after
 the Datastream metadata step.

 The configuration is a parameter because it is the one step the handlers
 do differently (a fixed header CSV, or a choice by file extension). The
 warehouse client, the wait for the job, the row counts and the logging
 are not part of this model.
 */
module Ingestion {
  import opened Wrappers
  import opened Text
  import opened LoadJob
  import opened TableResolver

  /**
   What `PROJECT_ID`, `DATASET_ID` and `TABLE_MAPPING` hold for one
   deployment; `tableMapping` is the dict's items, so its keywords are
   distinct (`DistinctKeywords`). No lemma here needs that.
   */
  datatype Deployment = Deployment(projectId: string, datasetId: string, tableMapping: Mapping)

  /** The arguments of the one `load_table_from_uri` call. */
  datatype LoadRequest = LoadRequest(sourceUri: string, destination: string, config: LoadJobSpec)

  datatype Outcome =
    | MissingEventField(key: string)        // `event[key]` raised: the invocation fails
    | NoTableMatch(fileName: string)        // warning logged, normal return, nothing loaded
    | Submitted(request: LoadRequest)

  function SourceUri(bucket: string, fileName: string): string {
    "gs://" + bucket + "/" + fileName
  }

  function TableId(projectId: string, datasetId: string, table: string): string {
    projectId + "." + datasetId + "." + table
  }

  /**
   One invocation of `main` on `event`. A resolved table name that is empty
   is falsy in Python and skips the event like no match at all.
   */
  function Handle(d: Deployment, event: map<string, string>, fallback: Fallback,
                  configure: string -> LoadJobSpec): (o: Outcome)
    ensures o.MissingEventField? <==> "bucket" !in event || "name" !in event
    ensures o.Submitted? ==> o.request.config.(schema := configure(event["name"]).schema) == configure(event["name"])
  {
    if "bucket" !in event then MissingEventField("bucket")
    else if "name" !in event then MissingEventField("name")
    else
      var bucket := event["bucket"];
      var fileName := event["name"];
      var table := Resolve(d.tableMapping, fileName, fallback);
      if table.None? || table.value == "" then NoTableMatch(fileName)
      else
        Submitted(LoadRequest(SourceUri(bucket, fileName),
                              TableId(d.projectId, d.datasetId, table.value),
                              WithDatastreamMetadata(configure(fileName))))
  }

  /**
   What `main` does to the configuration object before submitting it: build
   it, then let the metadata step update its schema in place. The object
   ends holding exactly the configuration `Handle` submits.
   */
  method PrepareLoadConfig(spec: LoadJobSpec) returns (jobConfig: JobConfig)
    ensures fresh(jobConfig)
    ensures jobConfig.Spec() == WithDatastreamMetadata(spec)
  {
    jobConfig := new JobConfig(spec);
    AddDatastreamMetadataFields(jobConfig);
  }

  /** A well-formed event is loaded exactly when the resolver yields a non-empty table name. */
  lemma SubmittedIffResolved(d: Deployment, event: map<string, string>, fallback: Fallback,
                             configure: string -> LoadJobSpec)
    requires "bucket" in event && "name" in event
    ensures var table := Resolve(d.tableMapping, event["name"], fallback);
            Handle(d, event, fallback, configure).Submitted? <==> table.Some? && table.value != ""
  {
  }

  /**
   A submitted load reads `gs://bucket/name` and writes a table of the
   mapping, named `project.dataset.table`.
   */
  lemma SubmittedTargetsMappedTable(d: Deployment, event: map<string, string>, fallback: Fallback,
                                    configure: string -> LoadJobSpec)
    requires Handle(d, event, fallback, configure).Submitted?
    ensures var r := Handle(d, event, fallback, configure).request;
            && r.sourceUri == "gs://" + event["bucket"] + "/" + event["name"]
            && exists table :: table in Values(d.tableMapping) && table != ""
                            && r.destination == d.projectId + "." + d.datasetId + "." + table
  {
    var table := Resolve(d.tableMapping, event["name"], fallback);
    ResolveIsMappedValue(d.tableMapping, event["name"], fallback);
    assert table.value in Values(d.tableMapping);
  }

  /**
   With no keyword match and a fallback candidate that is not a mapped table,
   the event is skipped and nothing is loaded.
   */
  lemma UnmatchedFileSkipped(d: Deployment, event: map<string, string>, fallback: Fallback,
                             configure: string -> LoadJobSpec)
    requires "bucket" in event && "name" in event
    requires NoKeywordMatches(d.tableMapping, Lower(event["name"]))
    requires FallbackCandidate(event["name"], fallback) !in Values(d.tableMapping)
    ensures Handle(d, event, fallback, configure) == NoTableMatch(event["name"])
  {
    NoMatchIff(d.tableMapping, Lower(event["name"]));
  }

  /** With an empty mapping no event is ever loaded. */
  lemma EmptyMappingNeverLoads(d: Deployment, event: map<string, string>, fallback: Fallback,
                               configure: string -> LoadJobSpec)
    requires d.tableMapping == []
    ensures !Handle(d, event, fallback, configure).Submitted?
  {
    if "bucket" in event && "name" in event {
      EmptyMappingResolvesNothing(event["name"], fallback);
    }
  }
}
