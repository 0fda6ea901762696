/** The requests that the command writer takes and the command reader gives, and the verbs they may have. */
module ExportRequests {
  import opened FormUrlencoded

  type Header = (string, string)

  datatype Part = TextPart(name: string, value: string) | FilePart(name: string, fileName: string)

  datatype Body =
    | NoBody
    | Raw(text: string)
    | Urlencoded(fields: seq<Field>)
    | Multipart(parts: seq<Part>)
    | Binary(fileName: string)

  datatype Request = Request(verb: string, url: string, headers: seq<Header>, body: Body)

  /** The texts a verb may be: neither empty nor long, and of `IsMethodChar` alone. */
  predicate IsHttpMethod(text: string) {
    1 <= |text| <= 32 && forall i :: 0 <= i < |text| ==> IsMethodChar(text[i])
  }

  predicate IsMethodChar(c: char) {
    'A' <= c <= 'Z' || '0' <= c <= '9' || c in "!#$%&'*+-.^_`|~"
  }
}
