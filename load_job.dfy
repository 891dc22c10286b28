/**
 The part of a warehouse load-job configuration the handlers set: source
 format, header rows to skip, schema auto-detection, the write and create
 dispositions and an explicit schema, plus the step that appends the
 Datastream metadata column when auto-detection is off.

 Every option the handlers may leave unset is an `Option`; an unset
 `autodetect` is falsy, as Python's `not None` is.
 */
module LoadJob {
  import opened Wrappers

  datatype FieldType = String | Integer | Timestamp | Record
  datatype Mode = Required | Nullable

  /** A schema column; `fields` holds the children of a RECORD column. */
  datatype Field = Field(name: string, fieldType: FieldType, mode: Mode, fields: seq<Field>)

  datatype SourceFormat = Csv | NewlineDelimitedJson | Avro | Parquet
  datatype WriteDisposition = WriteAppend | WriteTruncate | WriteEmpty
  datatype CreateDisposition = CreateIfNeeded | CreateNever

  datatype LoadJobSpec = LoadJobSpec(
    sourceFormat: SourceFormat,
    skipLeadingRows: Option<nat>,
    autodetect: Option<bool>,
    writeDisposition: Option<WriteDisposition>,
    createDisposition: Option<CreateDisposition>,
    schema: seq<Field>)

  /** Python truthiness of the `autodetect` option: only an explicit `True` is truthy. */
  predicate Truthy(flag: Option<bool>) {
    flag == Some(true)
  }

  /** The nested RECORD column that carries the Datastream source timestamp and log file. */
  const DatastreamMetadataField: Field :=
    Field("_datastream_metadata", Record, Nullable, [
      Field("source_timestamp", Timestamp, Nullable, []),
      Field("log_file", String, Nullable, [])
    ])

  /**
   The configuration `add_datastream_metadata_fields` leaves behind: with
   auto-detection off, the schema gains the metadata column at its end
   (appended to a non-empty schema, assigned to an empty one); nothing else
   changes.
   */
  function WithDatastreamMetadata(c: LoadJobSpec): (r: LoadJobSpec)
    ensures r.(schema := c.schema) == c
    ensures c.schema <= r.schema
    ensures |r.schema| == |c.schema| + (if Truthy(c.autodetect) then 0 else 1)
    ensures !Truthy(c.autodetect) ==> r.schema[|c.schema|] == DatastreamMetadataField
  {
    if Truthy(c.autodetect) then c
    else if c.schema != [] then c.(schema := c.schema + [DatastreamMetadataField])
    else c.(schema := [DatastreamMetadataField])
  }

  /** The CSV configuration the contributor and quality-audit handlers build in place. */
  function HeaderCsvConfig(): (c: LoadJobSpec)
    ensures c.sourceFormat == Csv && c.skipLeadingRows == Some(1) && Truthy(c.autodetect)
    ensures c.writeDisposition == Some(WriteAppend) && c.createDisposition == Some(CreateIfNeeded)
    ensures c.schema == []
  {
    LoadJobSpec(Csv, Some(1), Some(true), Some(WriteAppend), Some(CreateIfNeeded), [])
  }

  /** A load-job configuration object whose schema the metadata step updates in place. */
  class JobConfig {
    var sourceFormat: SourceFormat
    var skipLeadingRows: Option<nat>
    var autodetect: Option<bool>
    var writeDisposition: Option<WriteDisposition>
    var createDisposition: Option<CreateDisposition>
    var schema: seq<Field>

    /** The configuration this object currently holds. */
    function Spec(): LoadJobSpec
      reads this
    {
      LoadJobSpec(sourceFormat, skipLeadingRows, autodetect, writeDisposition, createDisposition, schema)
    }

    constructor (spec: LoadJobSpec)
      ensures Spec() == spec
    {
      sourceFormat := spec.sourceFormat;
      skipLeadingRows := spec.skipLeadingRows;
      autodetect := spec.autodetect;
      writeDisposition := spec.writeDisposition;
      createDisposition := spec.createDisposition;
      schema := spec.schema;
    }
  }

  /**
   `add_datastream_metadata_fields(job_config)`: only the schema may change;
   it is extended (or, when empty, replaced) by the metadata column exactly
   when auto-detection is falsy.
   */
  method AddDatastreamMetadataFields(jobConfig: JobConfig)
    modifies jobConfig`schema
    ensures jobConfig.Spec() == WithDatastreamMetadata(old(jobConfig.Spec()))
    ensures Truthy(jobConfig.autodetect) ==> jobConfig.schema == old(jobConfig.schema)
    ensures !Truthy(jobConfig.autodetect) ==> jobConfig.schema == old(jobConfig.schema) + [DatastreamMetadataField]
  {
    if !Truthy(jobConfig.autodetect) {
      var metadataFields := [DatastreamMetadataField];
      if jobConfig.schema != [] {
        jobConfig.schema := jobConfig.schema + metadataFields;
      } else {
        jobConfig.schema := metadataFields;
      }
    }
  }

  /** With auto-detection on, the metadata step is the identity. */
  lemma AutodetectedConfigUnchanged(c: LoadJobSpec)
    requires Truthy(c.autodetect)
    ensures WithDatastreamMetadata(c) == c
  {
  }

  /** With auto-detection off, an empty schema becomes exactly the metadata column. */
  lemma EmptySchemaGetsOnlyMetadata(c: LoadJobSpec)
    requires !Truthy(c.autodetect) && c.schema == []
    ensures WithDatastreamMetadata(c).schema == [DatastreamMetadataField]
  {
  }

  /** The step appends unconditionally: applied twice it leaves two metadata columns. */
  lemma MetadataStepNotIdempotent(c: LoadJobSpec)
    requires !Truthy(c.autodetect)
    ensures WithDatastreamMetadata(WithDatastreamMetadata(c)).schema
         == c.schema + [DatastreamMetadataField, DatastreamMetadataField]
    ensures WithDatastreamMetadata(WithDatastreamMetadata(c)) != WithDatastreamMetadata(c)
  {
    var once := WithDatastreamMetadata(c);
    var twice := WithDatastreamMetadata(once);
    assert |twice.schema| != |once.schema|;
  }

  /** The same, on the object: two calls in a row leave two metadata columns. */
  method AddDatastreamMetadataFieldsTwice(jobConfig: JobConfig)
    requires !Truthy(jobConfig.autodetect)
    modifies jobConfig`schema
    ensures jobConfig.schema == old(jobConfig.schema) + [DatastreamMetadataField, DatastreamMetadataField]
  {
    AddDatastreamMetadataFields(jobConfig);
    AddDatastreamMetadataFields(jobConfig);
  }

  /** The metadata column holds the two nullable Datastream columns, in this order. */
  lemma MetadataFieldLayout()
    ensures DatastreamMetadataField.fieldType == Record && DatastreamMetadataField.mode == Nullable
    ensures |DatastreamMetadataField.fields| == 2
    ensures DatastreamMetadataField.fields[0] == Field("source_timestamp", Timestamp, Nullable, [])
    ensures DatastreamMetadataField.fields[1] == Field("log_file", String, Nullable, [])
  {
  }

  /**
   A predefined table schema: a REQUIRED STRING identifier column first,
   then only NULLABLE flat columns.
   */
  predicate PredefinedShape(schema: seq<Field>) {
    && |schema| >= 1
    && schema[0].fieldType == String && schema[0].mode == Required
    && (forall i :: 0 <= i < |schema| ==> schema[i].fields == [])
    && (forall i :: 1 <= i < |schema| ==> schema[i].mode == Nullable)
  }
}
