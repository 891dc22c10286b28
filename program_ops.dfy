/**
 The program-ops staging-to-bronze handler
 (cloud_functions/cf_programops_staging_to_bronze/main.py): tables
 `program_metadata` and `acknowledgements`; the fallback candidate keeps
 the first two underscore segments; the load configuration is chosen by the
 file's extension.
 */
module ProgramOpsStaging {
  import opened Wrappers
  import opened Text
  import opened LoadJob
  import opened TableResolver
  import opened Ingestion

  /** `file_name.lower().split('.')[-1]`: the lower-cased text after the last '.'. */
  function Extension(fileName: string): string {
    var parts := Split(Lower(fileName), '.');
    parts[|parts| - 1]
  }

  predicate IsBinaryExtension(ext: string) {
    ext == "avro" || ext == "parquet"
  }

  /**
   `configure_load_job(file_name)`: JSON lines, header CSV, Avro or Parquet by
   extension, CSV without a header row otherwise; always append and create
   if needed, never an explicit schema.
   */
  function ConfigureLoadJob(fileName: string): (c: LoadJobSpec)
    ensures c.writeDisposition == Some(WriteAppend) && c.createDisposition == Some(CreateIfNeeded)
    ensures c.schema == []
    ensures c.sourceFormat == (match Extension(fileName)
                               case "json" => NewlineDelimitedJson
                               case "avro" => Avro
                               case "parquet" => Parquet
                               case _ => Csv)
    ensures c.skipLeadingRows == (if Extension(fileName) == "csv" then Some(1) else None)
    ensures IsBinaryExtension(Extension(fileName)) ==> c.autodetect == None
    ensures !IsBinaryExtension(Extension(fileName)) ==> c.autodetect == Some(true)
  {
    var fileExt := Extension(fileName);
    if fileExt == "json" then
      LoadJobSpec(NewlineDelimitedJson, None, Some(true), Some(WriteAppend), Some(CreateIfNeeded), [])
    else if fileExt == "csv" then
      LoadJobSpec(Csv, Some(1), Some(true), Some(WriteAppend), Some(CreateIfNeeded), [])
    else if fileExt in ["avro", "parquet"] then
      var sourceFormat := if fileExt == "avro" then Avro else Parquet;
      LoadJobSpec(sourceFormat, None, None, Some(WriteAppend), Some(CreateIfNeeded), [])
    else
      LoadJobSpec(Csv, None, Some(true), Some(WriteAppend), Some(CreateIfNeeded), [])
  }

  /** The extension of `base.ext` is `ext` lower-cased, when `ext` holds no '.'. */
  lemma ExtensionOfDottedName(base: string, ext: string)
    requires '.' !in ext
    ensures Extension(base + "." + ext) == Lower(ext)
  {
    LowerAppend(base + ".", ext);
    LowerAppend(base, ".");
    assert Lower(".") == ".";
    LowerKeeps(ext, '.');
    SplitAround(Lower(base), Lower(ext), '.');
    SplitWithoutSep(Lower(ext), '.');
  }

  /** Without a '.', the extension is the whole lower-cased name. */
  lemma ExtensionWithoutDot(fileName: string)
    requires '.' !in fileName
    ensures Extension(fileName) == Lower(fileName)
  {
    LowerKeeps(fileName, '.');
    SplitWithoutSep(Lower(fileName), '.');
  }

  /**
   `main` applies the metadata step to this configuration: only an Avro or
   Parquet file ends with a schema, and that schema is the metadata column
   alone.
   */
  lemma MetadataAfterConfigure(fileName: string)
    ensures WithDatastreamMetadata(ConfigureLoadJob(fileName)).schema
         == if IsBinaryExtension(Extension(fileName)) then [DatastreamMetadataField] else []
  {
  }

  /** A `.json` file: JSON lines, auto-detected, no header rows, and no metadata column. */
  lemma JsonFileConfig(base: string)
    ensures var c := ConfigureLoadJob(base + ".json");
            c.sourceFormat == NewlineDelimitedJson && c.autodetect == Some(true) && c.skipLeadingRows == None
            && WithDatastreamMetadata(c) == c
  {
    assert base + ".json" == base + "." + "json";
    ExtensionOfDottedName(base, "json");
    assert Lower("json") == "json";
  }

  /** A `.avro` file: Avro, no auto-detection, no header rows, and the metadata column as its whole schema. */
  lemma AvroFileConfig(base: string)
    ensures var c := ConfigureLoadJob(base + ".avro");
            c.sourceFormat == Avro && c.autodetect == None && c.skipLeadingRows == None
            && WithDatastreamMetadata(c).schema == [DatastreamMetadataField]
  {
    assert base + ".avro" == base + "." + "avro";
    ExtensionOfDottedName(base, "avro");
    assert Lower("avro") == "avro";
  }

  /** `determine_table_name(file_name)` with the two-segment fallback. */
  method DetermineTableName(mapping: Mapping, fileName: string) returns (table: Option<string>)
    ensures table == Resolve(mapping, fileName, FirstTwoSegments)
    ensures table.Some? ==> table.value in Values(mapping)
    ensures forall i :: IsFirstMatch(mapping, Lower(fileName), i) ==> table == Some(mapping[i].1)
    ensures NoKeywordMatches(mapping, Lower(fileName)) ==>
              table == (if FallbackCandidate(fileName, FirstTwoSegments) in Values(mapping)
                        then Some(FallbackCandidate(fileName, FirstTwoSegments)) else None)
  {
    table := TableResolver.DetermineTableName(mapping, fileName, FirstTwoSegments);
    ResolveIsMappedValue(mapping, fileName, FirstTwoSegments);
  }

  /**
   A name of the documented shape `program_metadata_<date>_<time>.<ext>`
   yields the candidate `program_metadata`.
   */
  lemma ProgramMetadataCandidate(rest: string)
    ensures FallbackCandidate("program_metadata_" + rest, FirstTwoSegments) == "program_metadata"
  {
    assert "program_metadata_" + rest == "program" + "_" + "metadata" + ['_'] + rest;
    FirstTwoSegmentsOfName("program", "metadata", '_', rest);
  }

  const Schemas: map<string, seq<Field>> := map[
    "program_metadata" := [
      Field("program_id", String, Required, []),
      Field("program_name", String, Nullable, []),
      Field("program_type", String, Nullable, []),
      Field("status", String, Nullable, []),
      Field("created_at", Timestamp, Nullable, [])
    ],
    "acknowledgements" := [
      Field("ack_id", String, Required, []),
      Field("program_id", String, Nullable, []),
      Field("contributor_id", String, Nullable, []),
      Field("ack_type", String, Nullable, []),
      Field("created_at", Timestamp, Nullable, [])
    ]
  ]

  /** `get_table_schema(table_name)`: a predefined schema, or the empty list for any other name. */
  function GetTableSchema(tableName: string): (schema: seq<Field>)
    ensures tableName == "program_metadata" ==> |schema| == 5 && schema[0].name == "program_id"
    ensures tableName == "acknowledgements" ==> |schema| == 5 && schema[0].name == "ack_id"
    ensures schema == [] <==> tableName !in {"program_metadata", "acknowledgements"}
    ensures schema != [] ==> PredefinedShape(schema)
  {
    if tableName in Schemas then Schemas[tableName] else []
  }

  /** `main(event, context)` of this handler. */
  function HandleEvent(d: Deployment, event: map<string, string>): (o: Outcome)
    ensures o.MissingEventField? <==> "bucket" !in event || "name" !in event
    ensures o.Submitted? ==> o.request.config == WithDatastreamMetadata(ConfigureLoadJob(event["name"]))
    ensures o.Submitted? ==>
              o.request.config.schema
                == if IsBinaryExtension(Extension(event["name"])) then [DatastreamMetadataField] else []
  {
    Handle(d, event, FirstTwoSegments, ConfigureLoadJob)
  }
}
