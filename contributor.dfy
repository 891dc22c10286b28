/**
 The contributor staging-to-bronze handler
 (cloud_functions/cf_contributor_staging_to_bronze/main.py): tables
 `contributors`, `tasks` and `task_feedback`; the fallback candidate keeps
 the first underscore segment; every load is a header CSV with schema
 auto-detection.
 */
module ContributorStaging {
  import opened Wrappers
  import opened Text
  import opened LoadJob
  import opened TableResolver
  import opened Ingestion

  /** `determine_table_name(file_name)` with the single-segment fallback. */
  method DetermineTableName(mapping: Mapping, fileName: string) returns (table: Option<string>)
    ensures table == Resolve(mapping, fileName, FirstSegment)
    ensures table.Some? ==> table.value in Values(mapping)
    ensures forall i :: IsFirstMatch(mapping, Lower(fileName), i) ==> table == Some(mapping[i].1)
    ensures NoKeywordMatches(mapping, Lower(fileName)) ==>
              table == (if FallbackCandidate(fileName, FirstSegment) in Values(mapping)
                        then Some(FallbackCandidate(fileName, FirstSegment)) else None)
  {
    table := TableResolver.DetermineTableName(mapping, fileName, FirstSegment);
    ResolveIsMappedValue(mapping, fileName, FirstSegment);
  }

  const ValidExtensions: seq<string> := [".csv", ".json", ".avro", ".parquet"]

  /** `validate_file_format(bucket_name, file_name)`: the bucket plays no part. */
  function ValidateFileFormat(bucketName: string, fileName: string): (valid: bool)
    ensures valid <==> EndsWith(Lower(fileName), ".csv") || EndsWith(Lower(fileName), ".json")
                       || EndsWith(Lower(fileName), ".avro") || EndsWith(Lower(fileName), ".parquet")
  {
    exists ext :: ext in ValidExtensions && EndsWith(Lower(fileName), ext)
  }

  const Schemas: map<string, seq<Field>> := map[
    "contributors" := [
      Field("contributor_id", String, Required, []),
      Field("name", String, Nullable, []),
      Field("email", String, Nullable, []),
      Field("created_at", Timestamp, Nullable, [])
    ],
    "tasks" := [
      Field("task_id", String, Required, []),
      Field("contributor_id", String, Nullable, []),
      Field("task_type", String, Nullable, []),
      Field("status", String, Nullable, []),
      Field("created_at", Timestamp, Nullable, []),
      Field("completed_at", Timestamp, Nullable, [])
    ],
    "task_feedback" := [
      Field("feedback_id", String, Required, []),
      Field("task_id", String, Nullable, []),
      Field("rating", Integer, Nullable, []),
      Field("comment", String, Nullable, []),
      Field("created_at", Timestamp, Nullable, [])
    ]
  ]

  /** `get_table_schema(table_name)`: a predefined schema, or the empty list for any other name. */
  function GetTableSchema(tableName: string): (schema: seq<Field>)
    ensures tableName == "contributors" ==> |schema| == 4 && schema[0].name == "contributor_id"
    ensures tableName == "tasks" ==> |schema| == 6 && schema[0].name == "task_id"
    ensures tableName == "task_feedback" ==> |schema| == 5 && schema[0].name == "feedback_id"
    ensures schema == [] <==> tableName !in {"contributors", "tasks", "task_feedback"}
    ensures schema != [] ==> PredefinedShape(schema)
  {
    if tableName in Schemas then Schemas[tableName] else []
  }

  /** `main(event, context)` of this handler. */
  function HandleEvent(d: Deployment, event: map<string, string>): (o: Outcome)
    ensures o.MissingEventField? <==> "bucket" !in event || "name" !in event
    ensures o.Submitted? ==> o.request.config == HeaderCsvConfig()
  {
    Handle(d, event, FirstSegment, fileName => HeaderCsvConfig())
  }

  /** The contributor load configuration: header CSV, auto-detected, so the metadata step changes nothing. */
  lemma LoadConfigIsHeaderCsv(d: Deployment, event: map<string, string>)
    requires HandleEvent(d, event).Submitted?
    ensures var c := HandleEvent(d, event).request.config;
            && c.sourceFormat == Csv && c.skipLeadingRows == Some(1) && c.autodetect == Some(true)
            && c.writeDisposition == Some(WriteAppend) && c.createDisposition == Some(CreateIfNeeded)
            && c.schema == []
            && WithDatastreamMetadata(c) == c
  {
  }

  /**
   Any name `contributors_<rest>`, such as `contributors_20250101_120000.csv`,
   under the mapping `{"contributors": "contributors"}` is loaded from
   `gs://bucket/<name>` into `project.dataset.contributors`.
   */
  lemma ContributorsFileLoaded(projectId: string, datasetId: string, bucket: string, rest: string)
    ensures var d := Deployment(projectId, datasetId, [("contributors", "contributors")]);
            var event := map["bucket" := bucket, "name" := "contributors_" + rest];
            HandleEvent(d, event)
              == Submitted(LoadRequest("gs://" + bucket + "/" + ("contributors_" + rest),
                                       projectId + "." + datasetId + "." + "contributors",
                                       HeaderCsvConfig()))
  {
    var m := [("contributors", "contributors")];
    var fileName := "contributors_" + rest;
    LowerAppend("contributors_", rest);
    assert Lower("contributors_") == "contributors_";
    assert Contains(Lower(fileName), "contributors") by {
      assert "contributors" <= Lower(fileName);
    }
    FirstMatchWins(m, Lower(fileName), 0);
  }

  /** `unknownthing_001.csv` under an empty mapping is skipped without failing. */
  lemma UnknownFileWithEmptyMappingSkipped(projectId: string, datasetId: string, bucket: string)
    ensures var d := Deployment(projectId, datasetId, []);
            var event := map["bucket" := bucket, "name" := "unknownthing_001.csv"];
            HandleEvent(d, event) == NoTableMatch("unknownthing_001.csv")
  {
    EmptyMappingResolvesNothing("unknownthing_001.csv", FirstSegment);
  }
}
