/**
 * The staged file and the request body the chat script sends for each reply:
 * `{contents: [{parts: [{text: message}, {inline_data: file}?]}]}`.
 */
module Request {
  import opened Wrappers
  import opened Text

  /** The staged file `{data, mime_type}`: base64 content (opaque here) and media type.
      A `data` of `undefined` and the empty string are both falsy and are both
      written `""`. */
  datatype Attachment = Attachment(data: string, mimeType: string)

  /** One element of the request's `parts` list. */
  datatype Part = TextPart(text: string) | InlineData(file: Attachment)

  datatype Content = Content(parts: seq<Part>)

  /** The JSON body posted to the generation endpoint. */
  datatype Body = Body(contents: seq<Content>)

  /** The file the user picked and what reading it as a data URL produced. */
  datatype SelectedFile = SelectedFile(dataUrl: string, mimeType: string)

  /** JavaScript truthiness of `file.data`: a staged file whose data is non-empty. */
  predicate HasData(file: Option<Attachment>)
  {
    file.Some? && file.value.data != ""
  }

  /** The request body built from the stored message and the staged file: the text
      part first, then an `inline_data` part only when the file has data. */
  function BuildBody(message: string, file: Option<Attachment>): (r: Body)
    ensures |r.contents| == 1
    ensures 1 <= |r.contents[0].parts| <= 2
    ensures r.contents[0].parts[0] == TextPart(message)
    ensures |r.contents[0].parts| == 2 <==> HasData(file)
    ensures |r.contents[0].parts| == 2 ==> r.contents[0].parts[1] == InlineData(file.value)
  {
    Body([Content([TextPart(message)] + (if HasData(file) then [InlineData(file.value)] else []))])
  }

  /** The attachment a user turn displays: the staged file when it has data, else none. */
  function ShownAttachment(file: Option<Attachment>): (r: Option<Attachment>)
    ensures r.Some? <==> HasData(file)
    ensures r.Some? ==> r == file
  {
    if HasData(file) then file else None
  }

  /** `dataUrl.split(",")[1]`: the second comma-separated field, `""` (for
      `undefined`) when the URL has no comma. */
  function DataUrlPayload(dataUrl: string): (r: string)
    ensures ',' !in r
  {
    var fields := Split(dataUrl, ',');
    if |fields| > 1 then fields[1] else ""
  }

  /** For a data URL `header,payload` with comma-free header and payload, the staged
      data is exactly the payload. */
  lemma DataUrlPayloadOf(header: string, payload: string)
    requires ',' !in header && ',' !in payload
    ensures DataUrlPayload(header + [','] + payload) == payload
  {
    SplitJoin([header, payload], ',');
    assert Join([header, payload], ',') == header + [','] + payload;
  }

  /** A URL without a comma stages no data. */
  lemma DataUrlWithoutComma(dataUrl: string)
    requires ',' !in dataUrl
    ensures DataUrlPayload(dataUrl) == ""
  {
    SplitWhole(dataUrl, ',');
  }
}
