/** The immutable log entries every query folds over. */
module Records {
  import opened Json

  /** The payload fields that the queries read; an absent field is `None`
      (JavaScript `undefined`). */
  datatype Payload = Payload(
    // module and router records
    src: Option<string>,
    compiledSrc: Option<string>,
    // asset and css-generated records
    content: Option<string>,
    mimeType: Option<string>,
    // uno-config records
    presets: Option<Json>,
    theme: Option<Json>,
    rules: Option<Json>,
    shortcuts: Option<Json>,
    path: Option<Json>,
    createdAt: Option<Json>,
    createdBy: Option<Json>,
    updatedAt: Option<Json>,
    updatedBy: Option<Json>,
    // uno-preset records
    moduleName: Option<Json>,
    priority: Option<int>,
    config: Option<Json>,
    registeredAt: Option<Json>,
    registeredBy: Option<Json>,
    // css-generated records
    generatedAt: Option<Json>,
    classCount: Option<int>
  )

  /** A payload with no field set. */
  const EmptyPayload := Payload(None, None, None, None, None, None, None, None, None, None,
                                None, None, None, None, None, None, None, None, None, None)

  /** One log entry; `kind` is the record's `type` tag. */
  datatype Record = Record(id: int, kind: string, name: string, operation: string, data: Payload)
}
