/** Requests and policies, as far as matching, key building and history look at them. */
module Model {

  /** The scope dimensions, in the order the key builder lists them. */
  datatype Field =
    | Org | Tenant | App | Service | Env | Signal | Operation | Endpoint | HttpMethod | User
    | ApiKey | Client | SourceIp | Region | Resource | Severity | Span | Topic | ConsumerGroup | JobType

  /** Field values of a request or of a policy scope; an absent field is the empty string. */
  datatype Attributes = Attributes(fields: map<Field, string>, tags: map<string, string>)

  function Value(a: Attributes, f: Field): string {
    if f in a.fields then a.fields[f] else ""
  }

  function Tag(tags: map<string, string>, k: string): string {
    if k in tags then tags[k] else ""
  }

  /** `body` stands for the settings that selection and keys do not read. */
  datatype Policy = Policy(id: string, priority: int, scope: Attributes, body: string)
}
