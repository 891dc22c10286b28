/**
 The quality-audit staging-to-bronze handler
 (cloud_functions/cf_qualityaudit_staging_to_bronze/main.py): tables
 `audits` and `audit_issues`; the fallback candidate keeps the first
 underscore segment; every load is a header CSV with schema auto-detection.
 */
module QualityAuditStaging {
  import opened Wrappers
  import opened Text
  import opened LoadJob
  import opened TableResolver
  import opened Ingestion

  /** `determine_table_name(file_name)` with the single-segment fallback. */
  method DetermineTableName(mapping: Mapping, fileName: string) returns (table: Option<string>)
    ensures table == Resolve(mapping, fileName, FirstSegment)
    ensures table.Some? ==> table.value in Values(mapping)
    ensures forall i :: IsFirstMatch(mapping, Lower(fileName), i) ==> table == Some(mapping[i].1)
    ensures NoKeywordMatches(mapping, Lower(fileName)) ==>
              table == (if FallbackCandidate(fileName, FirstSegment) in Values(mapping)
                        then Some(FallbackCandidate(fileName, FirstSegment)) else None)
  {
    table := TableResolver.DetermineTableName(mapping, fileName, FirstSegment);
    ResolveIsMappedValue(mapping, fileName, FirstSegment);
  }

  /**
   A name of the documented shape `audits_<date>_<time>.<ext>` falls back to
   `audits` when no keyword matches and `audits` is a mapped table.
   */
  lemma AuditsFileFallsBackToAudits(mapping: Mapping, rest: string)
    requires NoKeywordMatches(mapping, Lower("audits_" + rest))
    requires "audits" in Values(mapping)
    ensures Resolve(mapping, "audits_" + rest, FirstSegment) == Some("audits")
  {
    assert "audits_" + rest == "audits" + ['_'] + rest;
    FirstSegmentOfName("audits", '_', rest);
    NoMatchIff(mapping, Lower("audits_" + rest));
  }

  const Schemas: map<string, seq<Field>> := map[
    "audits" := [
      Field("audit_id", String, Required, []),
      Field("auditor_id", String, Nullable, []),
      Field("audit_type", String, Nullable, []),
      Field("status", String, Nullable, []),
      Field("created_at", Timestamp, Nullable, []),
      Field("completed_at", Timestamp, Nullable, [])
    ],
    "audit_issues" := [
      Field("issue_id", String, Required, []),
      Field("audit_id", String, Nullable, []),
      Field("severity", String, Nullable, []),
      Field("description", String, Nullable, []),
      Field("created_at", Timestamp, Nullable, [])
    ]
  ]

  /** `get_table_schema(table_name)`: a predefined schema, or the empty list for any other name. */
  function GetTableSchema(tableName: string): (schema: seq<Field>)
    ensures tableName == "audits" ==> |schema| == 6 && schema[0].name == "audit_id"
    ensures tableName == "audit_issues" ==> |schema| == 5 && schema[0].name == "issue_id"
    ensures schema == [] <==> tableName !in {"audits", "audit_issues"}
    ensures schema != [] ==> PredefinedShape(schema)
  {
    if tableName in Schemas then Schemas[tableName] else []
  }

  /** `main(event, context)` of this handler. */
  function HandleEvent(d: Deployment, event: map<string, string>): (o: Outcome)
    ensures o.MissingEventField? <==> "bucket" !in event || "name" !in event
    ensures o.Submitted? ==> o.request.config == HeaderCsvConfig()
  {
    Handle(d, event, FirstSegment, fileName => HeaderCsvConfig())
  }

  /** The configuration `main` builds is auto-detected, so the metadata step leaves its schema empty. */
  lemma HeaderCsvSchemaStaysEmpty()
    ensures WithDatastreamMetadata(HeaderCsvConfig()).schema == []
  {
  }
}
