/** XML elements as the parser receives them, and the helpers of
    `pronto.utils` whose code is not part of this model. */
module Xml {
  import opened Python

  /** A prefix-to-URI namespace table. */
  type NsMap = map<string, string>

  /** An element: its resolved tag, its attributes keyed by resolved
      name, its text (`None` when it has none) and its children in
      document order. */
  datatype Element = Element(tag: string, attrib: map<string, string>, text: Option<string>, children: seq<Element>)

  /** `element.get(key)` */
  function Get(e: Element, key: string): Option<string> {
    if key in e.attrib then Some(e.attrib[key]) else None
  }

  /** The helpers the parser calls but whose code is not modelled:
      `explicit_namespace(name, nsmap)` turns `prefix:local` into the
      resolved name used by tags and attribute keys,
      `format_accession(value, nsmap)` turns a resource reference (or
      `None`) into a term accession, and `parse_comment(text)` reads the
      metadata embedded in an `rdfs:comment`. */
  datatype Utils = Utils(
    explicitNamespace: (string, NsMap) -> string,
    formatAccession: (Option<string>, NsMap) -> PyValue,
    parseComment: Option<string> -> map<string, PyValue>)
}
