/** The shape of a Jackson `JsonNode`, as far as the pipeline reads it.
    Parsing itself is a collaborator (a function `string -> Option<Json>`);
    only the lookup `path(name)` and `asText(default)` are modelled. */
module Json {

  datatype Json =
    | Missing                        // `MissingNode`: what `path` gives for an absent field
    | Null                           // a JSON `null`
    | Text(text: string)             // a JSON string
    | Scalar(rendered: string)       // a number or boolean, with its textual rendering
    | Object(fields: map<string, Json>)
    | Array(items: seq<Json>)

  /** `node.path(name)`: the field of an object, `Missing` otherwise. */
  function Path(node: Json, name: string): (r: Json)
    ensures node.Object? && name in node.fields ==> r == node.fields[name]
    ensures !(node.Object? && name in node.fields) ==> r == Missing
  {
    match node
    case Object(fields) => if name in fields then fields[name] else Missing
    case _ => Missing
  }

  /** `node.asText(default)`: the default for a missing or null node, the
      text of a string verbatim, the rendering of a number or boolean, and
      the empty string for a container. */
  function AsText(node: Json, default: string): (r: string)
    ensures node.Missing? || node.Null? ==> r == default
    ensures node.Text? ==> r == node.text
    ensures node.Scalar? ==> r == node.rendered
    ensures node.Object? || node.Array? ==> r == ""
  {
    match node
    case Missing => default
    case Null => default
    case Text(t) => t
    case Scalar(r) => r
    case Object(_) => ""
    case Array(_) => ""
  }
}
