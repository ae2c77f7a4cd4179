# Video location labeler: a Dafny model of its frame pipeline

The script `main.py` turns a video into still frames, then asks a vision
model for a one-word location for each frame and writes the answers to a
text manifest. This project models that pipeline's deterministic core and
proves its properties. The network, file system and video decoder become
parameters.

- `outcomes.dfy`, module `Outcomes`: `Option`, `Result` and the Python
  exceptions the model represents (IndexError, ValueError, ZeroDivisionError).
  The script can also raise others (FileNotFoundError, errors from the HTTP
  call, AttributeError); see "## Left out".
- `pytext.dfy`, module `PyText`: the Python string operations the script uses.
  These are `str(n)`, `int(s)`, `s.split(c)` and `s.lower()`, all on ASCII.
  It also defines `Join`, which the script never calls; it only serves as
  the reference that `Split`'s contract is stated against.
- `frame_names.dfy`, module `FrameNames`: the frame file names `frame_{j}.jpg`
  and the sort key `int(x.split('_')[1].split('.')[0])` that reads their
  number back. It also holds the `sorted(...)` of the directory listing by
  that key.
- `sampling.dfy`, module `Sampling`: the frame loop of `extract_frames`. It
  returns the sequence of `imwrite` calls it makes.
- `payload.dfy`, module `Payload`: the request `send_to_chatgpt` builds from
  one or two images and a prompt, and the `'err'` fallback on an unreadable
  reply.
- `labeler.dfy`, module `Labeler`: the labeling loop of `get_frame_location`
  and the manifest it writes. The classifier is a function parameter from
  (image paths, prompt) to its answer.

Three behaviours of the code are easy to get wrong; the model follows the
code in each:

- The context given for frame i is the literal previous entry
  `locations[-1]`. When the classifier failed on frame i-1, that entry is
  `'err'`. The code does not fall back to the last successful label
  (`Labeler.ErrIsCarriedForward`).
- Answers are lower-cased but never trimmed. A single frame answered
  `"Kitchen "` gives the manifest line `frame_0: kitchen \n`, trailing blank
  kept (`Labeler.SingleFrameKitchen`).
- Failures are not a separate variant. They are the string `'err'`, which
  cannot be told apart from a classifier that literally answers "err" or "ERR"
  (`Payload.FailureIsIndistinguishable`).

## Model

| member | source | states |
|---|---|---|
| `FrameNames.FrameName` | main.py:36 | Definition of the name `frame_{j}.jpg`; its property is carried by `FrameNames.SortKeyOfFrameName`. |
| `PyText.NatToStr` | main.py:36 | `str(n)` is a non-empty string of decimal digits; it starts with '0' only when it is "0". |
| `PyText.ParseInt` | main.py:83 | `int(s)` succeeds exactly on non-empty ASCII digit strings; otherwise it raises ValueError. |
| `PyText.ParseIntOfNatToStr` | main.py:83 | `int(str(n)) == n` for every natural n. |
| `PyText.NatToStrInjective` | main.py:36 | Distinct frame numbers give distinct digit strings. |
| `PyText.Split` | main.py:83 | `s.split(c)` has at least one piece, no piece contains `c`, and joining the pieces with `c` gives back `s`. |
| `PyText.SplitWithoutSep` | main.py:83 | A string without the separator splits into itself alone. |
| `PyText.SplitArity` | main.py:83 | A split has two or more pieces exactly when the separator occurs, so `[1]` fails exactly when it is missing. |
| `PyText.SplitAtFirstSep` | main.py:83 | The piece before the first separator comes first, followed by the split of the rest. |
| `PyText.Lower` | main.py:96-97 | `lower()` keeps the length, leaves no capital letter, maps each capital to its small letter and keeps every other character (blanks included). |
| `PyText.LowerIdempotent` | main.py:96-97 | Lower-casing a stored label again changes nothing. |
| `PyText.LowerOfNoUpper` | main.py:75-78 | A string without capitals, such as the sentinel "err", is its own lower-case form. |
| `FrameNames.SortKey` | main.py:83 | The key raises IndexError exactly when the name has no '_'; otherwise it either succeeds or raises ValueError. |
| `FrameNames.SortKeyOfFrameName` | main.py:36 | The sort key of `frame_{j}.jpg` is j: the naming rule and the key are a round trip. |
| `FrameNames.InsertPermutes` | main.py:83 | An insertion step only adds the inserted name. |
| `FrameNames.InsertSorted` | main.py:83 | An insertion step keeps the list ordered by key. |
| `FrameNames.InsertionSort` | main.py:83 | `sorted(..., key=...)` yields a permutation of its input in ascending key order. |
| `FrameNames.FirstKeyError` | main.py:83 | There is an exception exactly when some key fails, and it is the exception of the first failing name in listing order. |
| `FrameNames.SortFrames` | main.py:83 | Sorting the listing raises exactly when some name has no key, with the exception of the first such name in listing order; otherwise it gives the listing reordered by ascending key. |
| `FrameNames.FirstFailureWins` | main.py:83 | With the listing `["ab", "x_y"]` the sort raises IndexError from "ab", not the ValueError that "x_y" would give. |
| `FrameNames.HeadsAgree` | main.py:83 | Two key-ordered permutations of the same names, with no key shared by two names, start alike. |
| `FrameNames.TailsPermutation` | main.py:83 | Dropping equal heads from two permutations of each other leaves permutations. |
| `FrameNames.SortedPermutationsAgree` | main.py:83 | Ordering by a key that no two names share has only one result. |
| `FrameNames.SortFramesOfListing` | main.py:83 | Whatever order the directory lists `frame_0.jpg` … `frame_{m-1}.jpg` in, the sorted result is `frame_0.jpg`, `frame_1.jpg`, …, `frame_{m-1}.jpg`. |
| `FrameNames.NumericNotLexicographic` | main.py:107 | The key puts `frame_9.jpg` before `frame_10.jpg`, whereas plain text order would put `frame_10.jpg` first. |
| `Sampling.NextKept` | main.py:35-36 | With w frames saved so far, the counter is divisible by the step exactly when it equals `w*step`, and the name then given is `frame_{w}`. |
| `Sampling.SavedCount` | main.py:34-41 | The number of frames saved from N frames is `ceil(N / step)`. |
| `Sampling.ExtractFrames` | main.py:26-43 | A step of 0 raises ZeroDivisionError exactly when at least one frame is read, and then nothing is written. Otherwise frame k is saved exactly when `k % step == 0`, as `frame_{k // step}.jpg`. The saved names are `frame_0`, `frame_1`, … with no gap, and there are `ceil(N / step)` of them. |
| `Payload.ImagePart` | main.py:64-72 | Definition of one image entry, the data URL of the encoded file; used by `Payload.Content`. |
| `Payload.Content` | main.py:62-73 | The content list is the prompt, then the first image; a second image follows exactly when two images are given, and a third is never sent. |
| `Payload.BuildRequest` | main.py:57-73 | An empty image list raises IndexError; otherwise the payload is one user message for gpt-4o-mini with `max_tokens` 300 and that content. |
| `Payload.Answer` | main.py:75-78 | Definition of the 'err' fallback; its property is carried by `Payload.SendToChatgpt` and `Payload.FailureIsIndistinguishable`. |
| `Payload.FailureIsIndistinguishable` | main.py:75-78 | An unreadable reply gives the same answer as a reply "err", and after lower-casing the same label as a reply "ERR". |
| `Payload.SendToChatgpt` | main.py:51-78 | The call raises IndexError exactly on an empty image list; otherwise it returns the content of the reply to the built request, or "err". |
| `Labeler.FramePath` | main.py:91 | Definition of the path `frames/frame_{i}.jpg`; used by `Labeler.LabelAt`. |
| `Labeler.ImagesFor` | main.py:91-95 | Definition of the images for frame i (frame 0 alone, else frame i then frame i-1); its property is carried by `Labeler.LabelAt` and `Labeler.LabelerRequestContent`. |
| `Labeler.PromptFor` | main.py:90-94 | Definition of the prompt for frame i, which embeds the last stored label for i >= 1; its property is carried by `Labeler.LabelAt`. |
| `Labeler.Labels` | main.py:85-97 | After n iterations, `locations` has exactly n entries, none with a capital letter. |
| `Labeler.LabelsPrefix` | main.py:87-97 | The loop only appends: entries already stored never change. |
| `Labeler.LabelAt` | main.py:88-97 | Entry 0 is the lower-cased answer for image `frame_0.jpg` alone with the fixed prompt. Entry i >= 1 is the lower-cased answer for images `[frame_i, frame_{i-1}]`, in that order, with the prompt that embeds entry i-1. |
| `Labeler.ErrIsCarriedForward` | main.py:94 | When the answer for frame i-1 is "err", entry i-1 is "err" and frame i is asked with "err" as the previous location. |
| `Labeler.LabelerRequestContent` | main.py:91-95 | Each request of the loop is accepted by send_to_chatgpt and carries the prompt, frame i's image and, for i >= 1, frame i-1's image. |
| `Labeler.ManifestLine` | main.py:101 | Definition of one line `frame_{i}: {location}\n`; its property is carried by `Labeler.ManifestLines`. |
| `Labeler.Manifest` | main.py:99-101 | Definition of the manifest text; its properties are carried by `Labeler.ManifestLines` and `Labeler.WriteManifest`. |
| `Labeler.ManifestSnoc` | main.py:100-101 | Writing one more entry appends exactly its line `frame_{i}: {location}\n`. |
| `Labeler.ManifestLines` | main.py:99-101 | When no label holds a newline, the manifest split at newlines is `frame_{i}: {locations[i]}` for each i in order, then an empty tail. |
| `Labeler.WriteManifest` | main.py:99-101 | The writing loop produces exactly the manifest: one line per entry, in index order, nothing else. |
| `Labeler.SingleFrameKitchen` | main.py:96-101 | One frame answered "Kitchen " is stored as "kitchen " and written as `frame_0: kitchen \n`. |
| `Labeler.GetFrameLocation` | main.py:81-101 | The call raises exactly when sorting the listing raises. Otherwise it labels one frame per listed name, `locations` equals `Labels` of that count, and the manifest is the text of those locations. |

## Left out

- Video decoding with OpenCV (`VideoCapture`, `read`, `get(CAP_PROP_FPS)`, `release`) is foreign I/O. The video is the sequence of frames `read()` returns, and fps is a given natural number. The `int()` of the float frame rate is not modelled.
- `Sampling.ExtractFrames` takes `fps` and `interval` as natural numbers. The only caller passes `interval=1`, and a frame rate is never negative. Python's floor `%`/`//` with a negative step is not modelled.
- The files already in the frames directory (created with `exist_ok=True`) and the order of `os.listdir` are parameters: the listing is an arbitrary sequence of names. A leftover file whose name has a numeric key (such as `notes_1.txt`) sorts in without error. The script then asks for `frames/frame_{m}.jpg`, which does not exist, and fails with FileNotFoundError before writing the manifest (not modelled, see the next line); the model instead labels m+1 frames and returns a manifest.
- The parameters `encode`, `respond` and `classify` are total functions. Exceptions from reading a frame file that does not exist (`encode_image` runs outside the `try`) and from the POST itself (`requests.post` also runs outside the `try`) are not modelled. So the "raises exactly when" claims of `Payload.SendToChatgpt` and `Labeler.GetFrameLocation` cover only the exceptions modelled here.
- `PyText.ParseInt` models `int()` only on ASCII digit strings. Python also accepts surrounding whitespace, a sign, underscores between digits and non-ASCII digits. None of these occurs in the names the script writes.
- `PyText.Lower` lower-cases ASCII only, not Python's full Unicode case mapping.
- `encode_image` (file read and base64) is the `encode` parameter, so images are opaque strings.
- `requests.post`, the JSON reply and the bare `except` are the `respond` parameter. It returns None for every reply whose `["choices"][0]["message"]["content"]` cannot be read.
- `Labeler.GetFrameLocation` does not compose with `Payload.SendToChatgpt`: the labeler takes any classifier function. `Labeler.LabelerRequestContent` states what send_to_chatgpt receives for each of the labeler's requests. A reply content that is not a string (where `.lower()` would raise) is not modelled.
- Logging (`logging.info`), dotenv and the API-key global are configuration and side effects.
- `combine_images_to_pdf` (FPDF) and `zip_images` (shutil) are document and archive I/O. The PDF step's page order is the same sort as `SortFrames`.
- `send_zip_to_chatgpt` and the `KeyError` handler in `main` are one HTTP call over file contents whose answer is only logged.
