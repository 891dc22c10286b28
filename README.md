# Staging-to-bronze ingestion handlers, modelled in Dafny

The repository holds three near-identical cloud functions: contributor, quality
audit and program ops. Each one is triggered by a storage-finalization event
and loads the uploaded file into a table of a warehouse "bronze" dataset. This
project models the part of each handler that is logic rather than calls to the
warehouse service, and proves what that logic promises:

- **Table-name resolution** (`determine_table_name`). The mapping is scanned in
  order: `TABLE_MAPPING` is the dict `json.loads` builds, whose items keep the
  order in which their keys first appear, each keyword once (a repeated key
  keeps its first position and takes its last value). The result
  is the table of the first keyword that occurs in the lower-cased file name.
  Otherwise a candidate is taken from the file name: its first `_` segment
  (contributor, quality audit) or its first two segments (program ops). The
  candidate is returned only if it is one of the mapping's tables.
  `TableResolver` holds the shared logic, parameterised by `Fallback`. The scan
  is a loop method proved equal to a recursive specification function.
- **Load-job configuration.** Program ops chooses a format by extension
  (`configure_load_job`). The other two handlers always use a header CSV with
  auto-detection (`LoadJob.HeaderCsvConfig`).
- **The Datastream metadata step** (`add_datastream_metadata_fields`). When
  auto-detection is not on, it appends one nested RECORD column to the schema,
  updating the configuration in place. It is modelled as a `JobConfig` class
  and a method that may change only the `schema` field. The method is proved
  equal to the pure function `WithDatastreamMetadata`.
- **Small helpers**: `validate_file_format` and `get_table_schema`.
- **The decision `main` takes**: fail on a missing event field, skip, or submit
  one load request `{source URI, project.dataset.table, configuration}`
  (`Ingestion.Handle`, with one instantiation per handler).

Python semantics that matter are written out in module `Text`:

- `str.split(sep)`: a string with no separator gives `[s]`, and the result is
  never empty.
- `'_'.join`, the substring test `k in s` and `str.endswith`.
- `str.lower`, restricted to ASCII.
- Python truthiness: an unset `autodetect` is falsy, and so is an empty table
  name in `if not table_name`.

The three copies of `add_datastream_metadata_fields` are identical, so they are
modelled once, in `LoadJob`. The two single-segment resolvers are also identical
apart from their comments.

Three behaviours of the code are worth knowing:

- The metadata step appends even to an empty schema. So an Avro or Parquet
  load in the program-ops handler ends with a schema made only of the metadata
  column (`ProgramOpsStaging.AvroFileConfig`).
- Keywords are never lower-cased, so a keyword holding a capital letter can
  never match (`TableResolver.UpperCaseKeywordNeverMatches`).
- A program-ops file name without a `.` has the whole lower-cased name as its
  extension. So a file named `CSV` takes the CSV-with-header branch, not the
  default one.

## Model

| member | source | states |
|---|---|---|
| `Text.Split` | cloud_functions/cf_contributor_staging_to_bronze/main.py:189-190 | `str.split` always yields at least one part, so `[0]` and `[-1]` are always defined |
| `Text.SplitJoin` | cloud_functions/cf_programops_staging_to_bronze/main.py:147 | `sep.join(s.split(sep)) == s`: joining the parts back with the separator gives the original string |
| `Text.SplitPart` | cloud_functions/cf_contributor_staging_to_bronze/main.py:189-190 | every part of a split is free of the separator and uses only characters of the string |
| `Text.SplitWithoutSep` | cloud_functions/cf_contributor_staging_to_bronze/main.py:189 | a string without the separator splits into itself alone |
| `Text.SplitAround` | cloud_functions/cf_programops_staging_to_bronze/main.py:87 | splitting `x + sep + y` gives the parts of `x` followed by the parts of `y` |
| `Text.SplitFirstKeepsPrefix` | cloud_functions/cf_contributor_staging_to_bronze/main.py:189-190 | a separator-free prefix stays at the front of the first part |
| `Text.SplitFirstIsPrefix` | cloud_functions/cf_contributor_staging_to_bronze/main.py:189 | the first part is a prefix of the string, and it is followed by the separator unless it is the whole string |
| `Text.ContainsIff` | cloud_functions/cf_contributor_staging_to_bronze/main.py:184 | the substring test `keyword in name` holds exactly when some slice of the name equals the keyword |
| `Text.ContainsChars` | cloud_functions/cf_contributor_staging_to_bronze/main.py:184 | every character of a contained keyword occurs in the name |
| `Text.LowerHasNoUpper` | cloud_functions/cf_contributor_staging_to_bronze/main.py:184 | a lower-cased name holds no ASCII capital |
| `Text.LowerAppend` | cloud_functions/cf_programops_staging_to_bronze/main.py:87 | lower-casing distributes over concatenation |
| `Text.LowerKeeps` | cloud_functions/cf_programops_staging_to_bronze/main.py:87 | lower-casing leaves a non-letter such as `.` at every position where it was and puts it nowhere else, so it neither adds nor removes one |
| `LoadJob.WithDatastreamMetadata` | cloud_functions/cf_contributor_staging_to_bronze/main.py:199-218 | only the schema changes; the old schema is kept as a prefix; exactly one column is added, and it is the metadata column, precisely when `autodetect` is falsy |
| `LoadJob.HeaderCsvConfig` | cloud_functions/cf_contributor_staging_to_bronze/main.py:117-123 | CSV, one header row skipped, auto-detection on, append, create if needed, no explicit schema |
| `LoadJob.JobConfig.constructor` | cloud_functions/cf_contributor_staging_to_bronze/main.py:117-123 | the new configuration object holds exactly the given settings |
| `LoadJob.AddDatastreamMetadataFields` | cloud_functions/cf_contributor_staging_to_bronze/main.py:199-218 | the object afterwards holds `WithDatastreamMetadata` of what it held before; the schema is extended by the metadata column when auto-detection is falsy and is untouched otherwise; no other field may change |
| `LoadJob.AutodetectedConfigUnchanged` | cloud_functions/cf_contributor_staging_to_bronze/main.py:206 | with `autodetect` truthy the configuration is left completely unchanged |
| `LoadJob.EmptySchemaGetsOnlyMetadata` | cloud_functions/cf_contributor_staging_to_bronze/main.py:215-218 | with auto-detection off, an empty schema becomes exactly the single metadata column |
| `LoadJob.MetadataStepNotIdempotent` | cloud_functions/cf_qualityaudit_staging_to_bronze/main.py:166-178 | the step appends rather than checks: applied twice it leaves two metadata columns and differs from applying it once |
| `LoadJob.AddDatastreamMetadataFieldsTwice` | cloud_functions/cf_qualityaudit_staging_to_bronze/main.py:166-178 | two in-place calls on one object leave its schema followed by two metadata columns |
| `LoadJob.MetadataFieldLayout` | cloud_functions/cf_contributor_staging_to_bronze/main.py:208-213 | the metadata column is a NULLABLE RECORD holding `source_timestamp` (TIMESTAMP, NULLABLE) and then `log_file` (STRING, NULLABLE) |
| `TableResolver.DetermineTableName` | cloud_functions/cf_contributor_staging_to_bronze/main.py:171-196 | the scan-with-early-return loop computes `Resolve`: the first matching entry's table if there is one; with no match, the fallback candidate if it is a mapped table, otherwise none |
| `TableResolver.FirstMatchWins` | cloud_functions/cf_contributor_staging_to_bronze/main.py:183-185 | if entry `i` is the first whose keyword occurs in the lower-cased name, the scan returns entry `i`'s table and later matches are ignored |
| `TableResolver.FirstMatchUnique` | cloud_functions/cf_contributor_staging_to_bronze/main.py:183-185 | only one entry can be the first match |
| `TableResolver.NoMatchIff` | cloud_functions/cf_contributor_staging_to_bronze/main.py:183-186 | the scan falls through exactly when no keyword occurs in the lower-cased name |
| `TableResolver.FirstMatchFound` | cloud_functions/cf_contributor_staging_to_bronze/main.py:183-185 | whatever the scan returns is the table of the first matching entry |
| `TableResolver.UpperCaseKeywordNeverMatches` | cloud_functions/cf_contributor_staging_to_bronze/main.py:184 | only the file name is lower-cased, so a keyword holding an ASCII capital never matches |
| `TableResolver.ResolveIsMappedValue` | cloud_functions/cf_contributor_staging_to_bronze/main.py:183-196 | the resolver returns none or one of the mapping's tables, never any other string |
| `TableResolver.EmptyMappingResolvesNothing` | cloud_functions/cf_contributor_staging_to_bronze/main.py:183-196 | an empty mapping resolves no file name |
| `TableResolver.BaseNameShape` | cloud_functions/cf_contributor_staging_to_bronze/main.py:189 | the text before the first `.` holds no `.` and is a prefix of the file name |
| `TableResolver.BaseNameAfter` | cloud_functions/cf_programops_staging_to_bronze/main.py:146 | a dot-free `t` followed by `.` has base name `t`; followed by `_`, the base name is `t_` and then the base name of the rest |
| `TableResolver.FirstSegmentCandidateShape` | cloud_functions/cf_contributor_staging_to_bronze/main.py:189-190 | the single-segment candidate holds neither `.` nor `_`, keeps its original case, is a prefix of the name, and is the whole name when the name holds neither character |
| `TableResolver.FirstSegmentOfName` | cloud_functions/cf_qualityaudit_staging_to_bronze/main.py:149-150 | for a `t` with neither `.` nor `_`, a name `t` followed by `.` or `_` and anything gives the candidate `t` |
| `TableResolver.FirstTwoSegmentsCandidateShape` | cloud_functions/cf_programops_staging_to_bronze/main.py:146-147 | the two-segment candidate holds no `.`, at most one `_`, and is a prefix of the name |
| `TableResolver.FirstTwoSegmentsOfName` | cloud_functions/cf_programops_staging_to_bronze/main.py:146-147 | for segments `t1`, `t2` with neither `.` nor `_`, a name `t1_t2` followed by `.` or `_` and anything gives the candidate `t1_t2` |
| `Ingestion.Handle` | cloud_functions/cf_contributor_staging_to_bronze/main.py:84-136 | the invocation fails exactly when `bucket` or `name` is missing from the event; a submitted configuration differs from the handler's own only in its schema |
| `Ingestion.PrepareLoadConfig` | cloud_functions/cf_contributor_staging_to_bronze/main.py:117-126 | building the configuration object and then running the in-place metadata step leaves a fresh object holding exactly the submitted configuration |
| `Ingestion.SubmittedIffResolved` | cloud_functions/cf_contributor_staging_to_bronze/main.py:108-111 | for an event with both fields, a load is submitted exactly when the resolver yields a non-empty table name |
| `Ingestion.SubmittedTargetsMappedTable` | cloud_functions/cf_contributor_staging_to_bronze/main.py:113-136 | a submitted load reads `gs://bucket/name` and writes `project.dataset.table` for a non-empty table of the mapping |
| `Ingestion.UnmatchedFileSkipped` | cloud_functions/cf_contributor_staging_to_bronze/main.py:108-111 | with no keyword match and an unmapped candidate, the event is skipped and the function returns normally without loading |
| `Ingestion.EmptyMappingNeverLoads` | cloud_functions/cf_contributor_staging_to_bronze/main.py:108-111 | with an empty mapping no event is ever loaded |
| `ContributorStaging.DetermineTableName` | cloud_functions/cf_contributor_staging_to_bronze/main.py:171-196 | single-segment resolver: the first keyword match wins; the result is always a mapped table; with no match, the result is the candidate if it is mapped, and none otherwise |
| `ContributorStaging.ValidateFileFormat` | cloud_functions/cf_contributor_staging_to_bronze/main.py:221-233 | true exactly when the lower-cased name ends with `.csv`, `.json`, `.avro` or `.parquet`; the bucket has no effect |
| `ContributorStaging.GetTableSchema` | cloud_functions/cf_contributor_staging_to_bronze/main.py:236-271 | `contributors`, `tasks` and `task_feedback` give 4, 6 and 5 columns, led by their id column; every other name gives the empty list; each predefined schema is a REQUIRED STRING id followed by NULLABLE columns |
| `ContributorStaging.HandleEvent` | cloud_functions/cf_contributor_staging_to_bronze/main.py:67-168 | fails exactly on a missing event field; every submitted load carries the header CSV configuration unchanged by the metadata step |
| `ContributorStaging.LoadConfigIsHeaderCsv` | cloud_functions/cf_contributor_staging_to_bronze/main.py:116-126 | a submitted load is CSV, skips 1 row, has auto-detection on, appends and creates if needed, has an empty schema, and the metadata step is a no-op on it |
| `ContributorStaging.ContributorsFileLoaded` | cloud_functions/cf_contributor_staging_to_bronze/main.py:182-185 | every name `contributors_<rest>` (such as `contributors_20250101_120000.csv`) under `{"contributors": "contributors"}` is loaded from `gs://bucket/<name>` into `project.dataset.contributors` |
| `ContributorStaging.UnknownFileWithEmptyMappingSkipped` | cloud_functions/cf_contributor_staging_to_bronze/main.py:107-111 | `unknownthing_001.csv` under an empty mapping is skipped without failing |
| `QualityAuditStaging.DetermineTableName` | cloud_functions/cf_qualityaudit_staging_to_bronze/main.py:131-156 | single-segment resolver: the first keyword match wins; the result is always a mapped table; with no match, the result is the candidate if it is mapped, and none otherwise |
| `QualityAuditStaging.AuditsFileFallsBackToAudits` | cloud_functions/cf_qualityaudit_staging_to_bronze/main.py:142-154 | a name `audits_...` whose lower-cased form matches no keyword resolves to `audits` when `audits` is a mapped table |
| `QualityAuditStaging.GetTableSchema` | cloud_functions/cf_qualityaudit_staging_to_bronze/main.py:181-210 | `audits` gives 6 columns and `audit_issues` gives 5, led by their id column; every other name gives the empty list; each predefined schema is a REQUIRED STRING id followed by NULLABLE columns |
| `QualityAuditStaging.HandleEvent` | cloud_functions/cf_qualityaudit_staging_to_bronze/main.py:67-128 | fails exactly on a missing event field; every submitted load carries the header CSV configuration unchanged by the metadata step |
| `QualityAuditStaging.HeaderCsvSchemaStaysEmpty` | cloud_functions/cf_qualityaudit_staging_to_bronze/main.py:96-105 | the configuration `main` builds is auto-detected, so after the metadata step its schema is still empty |
| `ProgramOpsStaging.ConfigureLoadJob` | cloud_functions/cf_programops_staging_to_bronze/main.py:76-125 | every branch appends, creates if needed and sets no schema. `json` gives JSON lines, `avro` gives Avro, `parquet` gives Parquet, and anything else gives CSV. Only `csv` skips a header row. Auto-detection is on except for `avro`/`parquet`, where it is unset |
| `ProgramOpsStaging.ExtensionOfDottedName` | cloud_functions/cf_programops_staging_to_bronze/main.py:87 | the extension of `base.ext`, for a dot-free `ext`, is `ext` lower-cased |
| `ProgramOpsStaging.ExtensionWithoutDot` | cloud_functions/cf_programops_staging_to_bronze/main.py:87 | a name without `.` has the whole lower-cased name as its extension |
| `ProgramOpsStaging.MetadataAfterConfigure` | cloud_functions/cf_programops_staging_to_bronze/main.py:47-50 | after the metadata step, an Avro or Parquet configuration's schema is exactly the metadata column, and every other configuration's schema stays empty |
| `ProgramOpsStaging.JsonFileConfig` | cloud_functions/cf_programops_staging_to_bronze/main.py:89-96 | a `.json` file gives JSON lines, auto-detection on, no header skip, and the metadata step leaves it unchanged |
| `ProgramOpsStaging.AvroFileConfig` | cloud_functions/cf_programops_staging_to_bronze/main.py:106-115 | a `.avro` file gives Avro with neither auto-detection nor a header skip, and after the metadata step its schema is the metadata column alone |
| `ProgramOpsStaging.DetermineTableName` | cloud_functions/cf_programops_staging_to_bronze/main.py:128-153 | two-segment resolver: the first keyword match wins; the result is always a mapped table; with no match, the result is the two-segment candidate if it is mapped, and none otherwise |
| `ProgramOpsStaging.ProgramMetadataCandidate` | cloud_functions/cf_programops_staging_to_bronze/main.py:139-147 | any name `program_metadata_...` yields the candidate `program_metadata` |
| `ProgramOpsStaging.GetTableSchema` | cloud_functions/cf_programops_staging_to_bronze/main.py:178-206 | `program_metadata` and `acknowledgements` give 5 columns each, led by their id column; every other name gives the empty list; each predefined schema is a REQUIRED STRING id followed by NULLABLE columns |
| `ProgramOpsStaging.HandleEvent` | cloud_functions/cf_programops_staging_to_bronze/main.py:18-73 | fails exactly on a missing event field; a submitted load carries the extension's configuration after the metadata step, whose schema is the metadata column for Avro/Parquet and empty otherwise |

## Left out

- The warehouse client is not modelled: `bigquery.Client`, `load_table_from_uri`, `load_job.result()`, `get_table`, `output_rows` and `num_rows`. These are calls into an external service whose behaviour is not visible here. The model stops at the load request `main` would submit.
- Logging, the lineage records, `datetime.utcnow` and the duration arithmetic are left out. They are observability only and do not affect control flow, given that `context.eventId` evaluates.
- `context.eventId` (cloud_functions/cf_contributor_staging_to_bronze/main.py:91, 147) is assumed to evaluate without error.
- Environment loading is not modelled. `PROJECT_ID`, `DATASET_ID` (defaults `contributor_bronze`, `qualityaudit_bronze`, `programops_bronze`) and `TABLE_MAPPING` are the fields of a `Deployment` parameter. `PROJECT_ID` is a string, so the client's own default project, used when the variable is unset, is not modelled.
- The library's `LoadJobConfig` property behaviour is not modelled. In the model, an unset `schema` is the empty list (the library gives `None`; both are falsy at `if job_config.schema`). The model assumes that `schema.extend` changes the stored schema; whether the library's getter returns a live list or a copy is not visible in these files.
- Python's exception details are reduced to `MissingEventField`. For example, when `event['bucket']` is missing, the `except` block itself raises because `file_name` is unbound. Failures of the warehouse service are not modelled.
- Case-folding covers ASCII letters only. Python's `str.lower` also folds non-ASCII letters.
- The `context` argument (used only in log records, under the assumption above), the unused `pandas` and `NotFound` imports, concurrent invocations and event redelivery are left out.
- The event's values are modelled as strings. A non-string `name` makes `main` raise inside `determine_table_name`; that failure is not modelled. A non-string `bucket` is only formatted into strings.
