/** send_to_chatgpt (main.py lines 51-78): the request it builds for one or
    two frame images and a prompt, and the answer it returns. Reading and
    base64-encoding a file is the `encode` parameter; posting the request and
    digging `["choices"][0]["message"]["content"]` out of the JSON reply is
    the `respond` parameter, which gives None when any of those steps fails. */
module Payload {
  import opened Outcomes
  import opened PyText

  /** One element of the message's content list. */
  datatype Part = Text(text: string) | ImageUrl(url: string)

  datatype Request = Request(model: string, role: string, content: seq<Part>, maxTokens: nat)

  const ModelName := "gpt-4o-mini"
  const MaxTokens := 300
  const DataUrlPrefix := "data:image/jpeg;base64,"

  /** What the classifier answers on any failure to read its reply. */
  const ErrAnswer := "err"

  function ImagePart(path: string, encode: string -> string): Part
  {
    ImageUrl(DataUrlPrefix + encode(path))
  }

  /** The content list: the prompt, then the first image, then the second
      image only when exactly two were given (a third is never sent). */
  function Content(images: seq<string>, prompt: string, encode: string -> string): (c: seq<Part>)
    requires images != []
    ensures |c| == if |images| == 2 then 3 else 2
    ensures c[0] == Text(prompt)
    ensures forall k :: 1 <= k < |c| ==> c[k] == ImagePart(images[k - 1], encode)
  {
    [Text(prompt), ImagePart(images[0], encode)]
      + (if |images| == 2 then [ImagePart(images[1], encode)] else [])
  }

  /** The payload built by send_to_chatgpt: `images[0]` raises IndexError on
      an empty list; otherwise the content list starts with the prompt and the
      first image, and the second image is appended when there are exactly two. */
  method BuildRequest(images: seq<string>, prompt: string, encode: string -> string)
    returns (r: Result<Request, PyError>)
    ensures r.Failure? <==> images == []
    ensures r.Failure? ==> r.error == IndexError
    ensures r.Success? ==> r.value == Request(ModelName, "user", Content(images, prompt, encode), MaxTokens)
  {
    if images == [] {
      return Failure(IndexError);
    }
    var content := [Text(prompt), ImagePart(images[0], encode)];
    if |images| == 2 {
      content := content + [ImagePart(images[1], encode)];
    }
    r := Success(Request(ModelName, "user", content, MaxTokens));
  }

  /** The reply's text, or "err" when it cannot be read. */
  function Answer(reply: Option<string>): string
  {
    match reply
    case Some(text) => text
    case None => ErrAnswer
  }

  /** An unreadable reply gives the same answer as a reply whose content is
      "err", and once lower-cased the same label as a reply "ERR": the
      labeler cannot tell a failed call from those answers. */
  lemma FailureIsIndistinguishable()
    ensures Answer(None) == Answer(Some("err"))
    ensures Lower(Answer(Some("ERR"))) == Lower(Answer(None)) == "err"
  {
    var upper := Lower("ERR");
    assert upper[0] as int == 'E' as int + 32 && upper[1] as int == 'R' as int + 32
        && upper[2] as int == 'R' as int + 32;
    assert upper == "err";
    LowerOfNoUpper("err");
  }

  /** send_to_chatgpt: build the request, post it, and return the reply's
      content, or "err" when the reply cannot be read. */
  method SendToChatgpt(images: seq<string>, prompt: string, encode: string -> string,
                       respond: Request -> Option<string>)
    returns (r: Result<string, PyError>)
    ensures r.Failure? <==> images == []
    ensures r.Failure? ==> r.error == IndexError
    ensures r.Success? ==>
      var reply := respond(Request(ModelName, "user", Content(images, prompt, encode), MaxTokens));
      (reply.Some? ==> r.value == reply.value) && (reply.None? ==> r.value == ErrAnswer)
  {
    var request := BuildRequest(images, prompt, encode);
    if request.Failure? {
      return Failure(request.error);
    }
    r := Success(Answer(respond(request.value)));
  }
}
