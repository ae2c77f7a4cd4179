/** get_frame_location (main.py lines 81-101): label every saved frame in
    order, asking the classifier about frame 0 alone and about each later
    frame together with its predecessor and the label stored for it, then
    write one `frame_{i}: {location}` line per frame. The classifier
    (send_to_chatgpt) is the parameter `classify`, from image paths and a
    prompt to its answer, which is "err" when the reply cannot be read. */
module Labeler {
  import opened Outcomes
  import opened PyText
  import opened FrameNames
  import Payload

  type Classifier = (seq<string>, string) -> string

  const FramesDir := "frames"

  /** The path the loop builds for frame i: `f'{FRAMES_DIR}/frame_{i}.jpg'`. */
  function FramePath(i: nat): string
  {
    FramesDir + "/" + FrameName(i)
  }

  /** The prompt for frame 0, which carries no context. */
  const FirstPrompt := "I sent you photo.I need you to say what location is in this photo in one word. For example, if it is a room in a house, then 'living room', 'bedroom', 'bathroom', etc. If outside, then 'street', 'road', 'porch', 'yard', etc."

  /** The prompt for frame i >= 1 is ContextPromptHead + locations[-1] + ContextPromptTail. */
  const ContextPromptHead := "I'm sending you two photos. The first photo is the current frame, and the second photo is the previous frame. I also tell you that the location on the previous frame is "
  const ContextPromptTail := ". You must understand whether the photos are frames of the same scene and the same room. If so, then you must name the location of the current frame as the previous one. If not, then you must name the new location of the current frame.Give me answer location in one word. For example, if it is a room in a house, then 'living room', 'bedroom', 'bathroom', etc. If outside, then 'garage', 'yard', etc."

  /** The images sent for frame i: frame 0 alone, otherwise the current frame then the previous one. */
  function ImagesFor(i: nat): seq<string>
  {
    if i == 0 then [FramePath(0)] else [FramePath(i), FramePath(i - 1)]
  }

  /** The prompt for frame i, given the labels stored so far. */
  function PromptFor(i: nat, stored: seq<string>): string
    requires i == 0 || stored != []
  {
    if i == 0 then FirstPrompt else ContextPromptHead + stored[|stored| - 1] + ContextPromptTail
  }

  /** The `locations` list after the loop has handled frames 0 .. n-1: each
      answer is lower-cased, and nothing else is done to it. */
  function Labels(classify: Classifier, n: nat): (ls: seq<string>)
    ensures |ls| == n
    ensures forall k :: 0 <= k < n ==> NoUpper(ls[k])
  {
    if n == 0 then []
    else
      var stored := Labels(classify, n - 1);
      stored + [Lower(classify(ImagesFor(n - 1), PromptFor(n - 1, stored)))]
  }

  /** Running the loop further only appends: the first m entries never change. */
  lemma {:induction false} LabelsPrefix(classify: Classifier, m: nat, n: nat)
    requires m <= n
    ensures Labels(classify, n)[..m] == Labels(classify, m)
    decreases n
  {
    if m < n {
      LabelsPrefix(classify, m, n - 1);
      assert Labels(classify, n)[..n - 1] == Labels(classify, n - 1);
      assert Labels(classify, n)[..m] == Labels(classify, n)[..n - 1][..m];
    }
  }

  /** Entry i is the lower-cased answer for frame i. Frame 0 is asked with its
      own image alone and the fixed prompt; frame i >= 1 with the images
      `[frame_i, frame_{i-1}]` and a prompt whose context is entry i-1, the
      stored previous answer. */
  lemma LabelAt(classify: Classifier, n: nat, i: nat)
    requires i < n
    ensures i == 0 ==>
      Labels(classify, n)[0] == Lower(classify([FramePath(0)], FirstPrompt))
    ensures i > 0 ==>
      Labels(classify, n)[i] == Lower(classify([FramePath(i), FramePath(i - 1)],
                                               ContextPromptHead + Labels(classify, n)[i - 1] + ContextPromptTail))
  {
  }

  /** The context is the literal previous entry: when the classifier failed
      on frame i-1, frame i is asked with "err" as the previous location,
      whatever earlier frames were labelled. */
  lemma ErrIsCarriedForward(classify: Classifier, n: nat, i: nat)
    requires 1 <= i < n
    requires classify(ImagesFor(i - 1), PromptFor(i - 1, Labels(classify, i - 1))) == Payload.ErrAnswer
    ensures Labels(classify, n)[i - 1] == "err"
    ensures Labels(classify, n)[i] == Lower(classify([FramePath(i), FramePath(i - 1)],
                                                     ContextPromptHead + "err" + ContextPromptTail))
  {
    LabelsPrefix(classify, i, n);
    assert Labels(classify, i)[i - 1] == Lower("err");
    LowerOfNoUpper("err");
    assert Labels(classify, n)[i - 1] == Labels(classify, n)[..i][i - 1];
    LabelAt(classify, n, i);
  }

  /** Every request the loop makes is one send_to_chatgpt accepts: it never
      raises IndexError, and its content is the prompt followed by the image
      of frame i and, for i >= 1, the image of frame i-1. */
  lemma LabelerRequestContent(i: nat, prompt: string, encode: string -> string)
    ensures ImagesFor(i) != []
    ensures Payload.Content(ImagesFor(i), prompt, encode)
         == [Payload.Text(prompt), Payload.ImagePart(FramePath(i), encode)]
            + (if i > 0 then [Payload.ImagePart(FramePath(i - 1), encode)] else [])
  {
  }

  /** One line of the manifest. */
  function ManifestLine(i: nat, location: string): string
  {
    "frame_" + NatToStr(i) + ": " + location + "\n"
  }

  /** The manifest lines for `locations`, numbered from `first`. */
  function ManifestFrom(locations: seq<string>, first: nat): string
    decreases |locations|
  {
    if locations == [] then ""
    else ManifestLine(first, locations[0]) + ManifestFrom(locations[1..], first + 1)
  }

  /** The text written to the label manifest. */
  function Manifest(locations: seq<string>): string
  {
    ManifestFrom(locations, 0)
  }

  /** Writing one more entry appends exactly its line. */
  lemma {:induction false} ManifestSnoc(locations: seq<string>, first: nat, x: string)
    ensures ManifestFrom(locations + [x], first)
         == ManifestFrom(locations, first) + ManifestLine(first + |locations|, x)
    decreases |locations|
  {
    if locations == [] {
      assert ([] + [x])[1..] == [];
    } else {
      assert (locations + [x])[1..] == locations[1..] + [x];
      ManifestSnoc(locations[1..], first + 1, x);
    }
  }

  /** The manifest's lines, separated at newlines, are `frame_{i}: {locations[i]}`
      for i = 0, 1, … in order, followed by the empty tail after the last
      newline, as long as no label itself holds a newline (labels are never
      trimmed, so one that does would break the line count). */
  lemma {:induction false} ManifestLines(locations: seq<string>, first: nat)
    requires forall k :: 0 <= k < |locations| ==> '\n' !in locations[k]
    ensures Split(ManifestFrom(locations, first), '\n')
         == seq(|locations|, k requires 0 <= k < |locations| =>
                  "frame_" + NatToStr(first + k) + ": " + locations[k]) + [""]
    decreases |locations|
  {
    if locations != [] {
      var line := "frame_" + NatToStr(first) + ": " + locations[0];
      var rest := ManifestFrom(locations[1..], first + 1);
      assert '\n' !in line by {
        var digits := NatToStr(first);
        assert forall c :: c in digits ==> IsDigit(c);
      }
      assert ManifestFrom(locations, first) == line + ['\n'] + rest;
      SplitAtFirstSep(line, '\n', rest);
      ManifestLines(locations[1..], first + 1);
    }
  }

  /** The manifest-writing loop: one line per entry, in index order. */
  method WriteManifest(locations: seq<string>) returns (text: string)
    ensures text == Manifest(locations)
  {
    text := "";
    for i := 0 to |locations|
      invariant text == ManifestFrom(locations[..i], 0)
    {
      ManifestSnoc(locations[..i], 0, locations[i]);
      assert locations[..i + 1] == locations[..i] + [locations[i]];
      text := text + ManifestLine(i, locations[i]);
    }
    assert locations[..|locations|] == locations;
  }

  /** A single frame whose answer is "Kitchen " is stored as "kitchen ": the
      answer is lower-cased but its trailing blank is kept. */
  lemma SingleFrameKitchen()
    ensures Labels((images, prompt) => "Kitchen ", 1) == ["kitchen "]
    ensures Manifest(Labels((images, prompt) => "Kitchen ", 1)) == "frame_0: kitchen \n"
  {
    var classify: Classifier := (images, prompt) => "Kitchen ";
    var stored := Lower("Kitchen ");
    assert stored[0] as int == 'K' as int + 32;
    assert stored == "kitchen ";
    assert Labels(classify, 1) == ["kitchen "];
    assert NatToStr(0) == "0" by {
      assert DigitChar(0) == '0';
    }
  }

  /** get_frame_location: sort the listing of the frames directory (raising
      when a name has no numeric key), label as many frames as it lists, and
      produce the manifest text. */
  method GetFrameLocation(listing: seq<string>, classify: Classifier)
    returns (r: Result<(seq<string>, string), PyError>)
    ensures r.Failure? <==> SortFrames(listing).Failure?
    ensures r.Failure? ==> r.error == SortFrames(listing).error
    ensures r.Success? ==> r.value.0 == Labels(classify, |listing|)
    ensures r.Success? ==> r.value.1 == Manifest(r.value.0)
  {
    var sorted := SortFrames(listing);
    if sorted.Failure? {
      return Failure(sorted.error);
    }
    var frames := sorted.value;
    assert |frames| == |multiset(frames)| == |listing|;
    var locations: seq<string> := [];
    for i := 0 to |frames|
      invariant locations == Labels(classify, i)
    {
      var location: string;
      if i == 0 {
        assert FramesDir + "/frame_0.jpg" == FramePath(0) by {
          assert DigitChar(0) == '0';
        }
        location := classify([FramesDir + "/frame_0.jpg"], FirstPrompt);
      } else {
        var prompt := ContextPromptHead + locations[|locations| - 1] + ContextPromptTail;
        location := classify([FramePath(i), FramePath(i - 1)], prompt);
      }
      locations := locations + [Lower(location)];
    }
    var manifest := WriteManifest(locations);
    r := Success((locations, manifest));
  }
}
