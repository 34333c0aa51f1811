/**
  The `summarize_lab_report` tool from request to parsable reply text: it posts
  the request built from the lab text, flattens the reply's content and strips
  any Markdown code fence, leaving the text that is parsed as JSON. The exchange
  with the server is a parameter: whatever content it replies with.
*/
module LabTool {
  import opened Wrappers
  import opened Text
  import opened Fences
  import opened Reply
  import opened Request

  /** The text handed to the JSON parser for a reply with this content. */
  function CleanedReply(content: Content): (r: string)
    ensures |r| <= |FlattenContent(content)|
    ensures IsTrimmed(r)
  {
    StripCodeFences(FlattenContent(content))
  }

  /** One call of the tool: the request it sends, and the cleaned reply text. */
  datatype Exchange = Exchange(request: Payload, cleaned: string)

  /** The server answers exactly the request built for this lab text, and the
      text parsed is what cleaning makes of that answer. */
  function SummarizeLabReport(systemPrompt: string, labText: string, server: Payload -> Content): (e: Exchange)
    ensures e.request == BuildPayload(systemPrompt, labText)
    ensures ContentOf(e.request.messages, UserRole) == Some(labText)
    ensures ContentOf(e.request.messages, SystemRole) == Some(systemPrompt)
    ensures e.cleaned == CleanedReply(server(e.request))
    ensures IsTrimmed(e.cleaned)
  {
    PayloadRecoversInputs(systemPrompt, labText);
    var request := BuildPayload(systemPrompt, labText);
    Exchange(request, CleanedReply(server(request)))
  }

  /** A reply string holding a JSON-tagged fenced block yields the block's body. */
  lemma FencedStringReply(p: string)
    requires IsTrimmed(p)
    ensures CleanedReply(Str("```json\n" + p + "\n```")) == p
  {
    JsonFenceRoundTrip(p);
  }

  /** The same when the server splits the reply into parts: the fence lines may
      arrive as parts of their own, with the body spread over the parts between. */
  lemma FencedPartsReply(body: seq<Part>, p: string)
    requires FlattenContent(Parts(body)) == p && IsTrimmed(p)
    ensures CleanedReply(Parts([Dict(Some("```json\n"))] + body + [Dict(Some("\n```"))])) == p
  {
    var opening, closing := [Dict(Some("```json\n"))], [Dict(Some("\n```"))];
    FlattenAppend(opening + body, closing);
    FlattenAppend(opening, body);
    FlattenSingle(Dict(Some("```json\n")));
    FlattenSingle(Dict(Some("\n```")));
    JsonFenceRoundTrip(p);
  }

  /** Unfenced reply text is only trimmed, however it is split into parts. */
  lemma UnfencedPartsReply(parts: seq<Part>)
    requires !StartsWith(Strip(FlattenContent(Parts(parts))), Fence)
    ensures CleanedReply(Parts(parts)) == Strip(Contributions(parts))
  {
  }

  /** A server whose answer to the tool's request reads as a fenced block
      around a trimmed `p` (a `json` tag in any case, or no tag when `p` does not
      begin with `json`; any whitespace between the pieces; in one string or
      spread over parts) makes the tool parse exactly `p`. */
  lemma SummarizeWithFencedServer(systemPrompt: string, labText: string, server: Payload -> Content,
                                  lead: string, gap1: string, tag: string, gap2: string,
                                  p: string, pad: string, trail: string)
    requires AllWhitespace(lead) && AllWhitespace(gap1) && AllWhitespace(gap2)
    requires AllWhitespace(pad) && AllWhitespace(trail)
    requires IsTrimmed(p)
    requires IsJsonTag(tag) || (tag == [] && !StartsWithIgnoringCase(p, JsonTag))
    requires FlattenContent(server(BuildPayload(systemPrompt, labText)))
             == Wrapped(lead, gap1, tag, gap2, p, pad, trail)
    ensures SummarizeLabReport(systemPrompt, labText, server).cleaned == p
  {
    FencedRoundTrip(lead, gap1, tag, gap2, p, pad, trail);
  }

  /** A server whose answer does not open with a fence after trimming has its
      answer parsed as it is, only trimmed. */
  lemma SummarizeWithUnfencedServer(systemPrompt: string, labText: string, server: Payload -> Content)
    requires !StartsWith(Strip(FlattenContent(server(BuildPayload(systemPrompt, labText)))), Fence)
    ensures SummarizeLabReport(systemPrompt, labText, server).cleaned
            == Strip(FlattenContent(server(BuildPayload(systemPrompt, labText))))
  {
  }
}
