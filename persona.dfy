/**
 * The query loader (`load_persona`): reads the persona role and the
 * job-to-be-done task from the parsed descriptor, forms the ranking query
 * "<role>: <task>" and keeps the run metadata.
 *
 * Reading and parsing the JSON file is I/O and is not modelled: the loader
 * receives the value that `json.load` produced.
 */
module Persona {
  import opened Wrappers

  /** A parsed JSON value. Numbers are represented by integers. */
  datatype Json =
    | JNull
    | JBool(b: bool)
    | JNumber(n: int)
    | JString(s: string)
    | JArray(items: seq<Json>)
    | JObject(fields: map<string, Json>)

  /** Why the descriptor could not be loaded. */
  datatype LoadError =
    | MissingKey(key: string)   // Python raises KeyError
    | NotAnObject(key: string)  // Python raises TypeError: the value indexed by `key` is not a mapping
    | NotText(key: string)      // the role or the job task is not a JSON string

  /** The metadata kept for the report. */
  datatype Meta = Meta(persona: string, job: string, challengeInfo: Json, documents: Json)

  const SEPARATOR := ": "

  /** `v[key]` on a parsed JSON value. */
  function Field(v: Json, key: string): Result<Json, LoadError> {
    match v
    case JObject(fields) => if key in fields then Ok(fields[key]) else Err(MissingKey(key))
    case _ => Err(NotAnObject(key))
  }

  /** `fields.get(key, default)`. */
  function GetOr(fields: map<string, Json>, key: string, default: Json): Json {
    if key in fields then fields[key] else default
  }

  function Text(v: Json, key: string): Result<string, LoadError> {
    if v.JString? then Ok(v.s) else Err(NotText(key))
  }

  /** The role as the descriptor holds it, when it is there. */
  predicate HasText(data: Json, outer: string, inner: string) {
    && data.JObject? && outer in data.fields
    && data.fields[outer].JObject? && inner in data.fields[outer].fields
    && data.fields[outer].fields[inner].JString?
  }

  function TextAt(data: Json, outer: string, inner: string): string
    requires HasText(data, outer, inner)
  {
    data.fields[outer].fields[inner].s
  }

  /**
   * `load_persona` after the file has been parsed: the query string and the
   * metadata, or the first error Python would raise. Both lookups are made
   * before either value is used, as in the source.
   */
  function Load(data: Json): (r: Result<(string, Meta), LoadError>)
    ensures r.Ok? <==> HasText(data, "persona", "role") && HasText(data, "job_to_be_done", "task")
    ensures r.Ok? ==>
      var role, task := TextAt(data, "persona", "role"), TextAt(data, "job_to_be_done", "task");
      && r.value.0 == role + SEPARATOR + task
      && r.value.1.persona == role
      && r.value.1.job == task
      && r.value.1.challengeInfo == (if "challenge_info" in data.fields then data.fields["challenge_info"] else JObject(map[]))
      && r.value.1.documents == (if "documents" in data.fields then data.fields["documents"] else JArray([]))
    ensures !data.JObject? ==> r == Err(NotAnObject("persona"))
    ensures data.JObject? && "persona" !in data.fields ==> r == Err(MissingKey("persona"))
    ensures (data.JObject? && "persona" in data.fields && "job_to_be_done" !in data.fields
             && Field(data.fields["persona"], "role").Ok?) ==> r == Err(MissingKey("job_to_be_done"))
  {
    var persona :- Field(data, "persona");
    var roleValue :- Field(persona, "role");
    var jobValue :- Field(data, "job_to_be_done");
    var taskValue :- Field(jobValue, "task");
    var role :- Text(roleValue, "role");
    var task :- Text(taskValue, "task");
    var meta := Meta(role, task, GetOr(data.fields, "challenge_info", JObject(map[])), GetOr(data.fields, "documents", JArray([])));
    Ok((role + SEPARATOR + task, meta))
  }

  /** The separator ": " occurs in `s` at index `j`. */
  predicate SeparatorAt(s: string, j: int) {
    0 <= j && j + 2 <= |s| && s[j] == ':' && s[j + 1] == ' '
  }

  /** The index of the first occurrence of the separator in `s`, or |s| if it has none. */
  function FirstSeparator(s: string): (i: nat)
    ensures i <= |s|
    ensures i < |s| ==> SeparatorAt(s, i)
    ensures forall j :: 0 <= j < i ==> !SeparatorAt(s, j)
  {
    if |s| < 2 then |s|
    else if SeparatorAt(s, 0) then 0
    else
      var i := 1 + FirstSeparator(s[1..]);
      assert forall j :: 1 <= j <= |s| ==> (SeparatorAt(s, j) <==> SeparatorAt(s[1..], j - 1));
      i
  }

  /**
   * The query keeps both fields recoverable: when the role itself does not
   * contain ": ", splitting the query at its first ": " gives back the role
   * and the job task.
   */
  lemma QueryRecoversFields(role: string, task: string)
    requires forall j :: !SeparatorAt(role, j)
    ensures var q := role + SEPARATOR + task;
      FirstSeparator(q) == |role| && q[..|role|] == role && q[|role| + |SEPARATOR|..] == task
  {
    var q := role + SEPARATOR + task;
    assert SeparatorAt(q, |role|);
    forall j | 0 <= j < |role|
      ensures !SeparatorAt(q, j)
    {
      if j + 1 < |role| {
        assert !SeparatorAt(role, j);
      } else {
        // an occurrence starting at the role's last character would need q[|role|] == ' '
        assert q[j + 1] == ':';
      }
    }
  }
}
