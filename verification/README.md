# RAG assistant glue scripts — a Dafny model

The repository is a retrieval-augmented question-answering pipeline over
course videos, made of four scripts that glue external tools together:

1. `video_to_mp3.py` turns each video into `audios/<number>_<name>.mp3`
   with ffmpeg. The number and name come from the video's filename.
2. `mp3_to_json.py` transcribes each `<number>_<title>.mp3` with Whisper.
   It writes the timed segments as chunk records to `jsons/<audio>.json`.
3. `creating_embeddings.py` embeds every document's chunk texts in one
   batched request per document. It flattens all chunks into one table,
   numbering them with a run-wide `chunk_id` counter.
4. `inference.py` embeds a question and scores every table row against it.
   It then takes the five best-scoring rows for the prompt.

This project models the pure logic inside that I/O as pure Dafny
functions and proves its properties. The modules are:

- `PyStr` (`pystr.dfy`): the Python string operations the scripts use.
  These are `sep in s`, `s.split(sep)` with an explicit separator and the
  slice `s[:-n]`. `Find`, `Join` and the `partition`-style `Before` and
  `After` do not appear in the scripts. They are proof helpers that
  describe a split: `Join` is its inverse, and `Before`/`After` read off
  its first fields.
- `Seq` (`seq.dfy`): a loop that stops at the first exception, and the
  `for`/`if` loop that keeps the elements passing a test.
- `VideoToMp3` (`video_to_mp3.dfy`): tutorial-number and base-name
  extraction, the output audio name, and the ffmpeg command for each
  video.
- `Mp3ToJson` (`mp3_to_json.dfy`): the audio-name filter and parser, the
  mapping from segments to chunks, and the output document. It also holds
  the round trip of the naming convention across the two scripts.
- `CreatingEmbeddings` (`creating_embeddings.dfy`): the embedding batch
  for each document, and the flattening into table rows with run-wide
  chunk ids. This is written both as a recursive definition and as the
  script's loops with a mutable counter, proved equal.
- `Inference` (`inference.dfy`): the query vector,
  the `argsort()[::-1][:5]` selection, and the row extraction.
- `Wrappers` (`wrappers.dfy`): `Option` and `Result`. `Result` carries the
  exception a script would raise, such as `IndexError`.

External services are parameters of the model:
- Whisper is a function from an audio name to a transcription.
- The embedding service is a function from a list of strings to a list
  of vectors.
- The cosine-similarity scores are a given `seq<real>`.
- The directory listings are given sequences, in listing order.

Behaviour of the code that the model keeps as written:
- The embedding step does not check that the embedding response has the
  right length. A short response raises `IndexError` at the first chunk
  that has no vector (`creating_embeddings.py:61`). Extra vectors are
  ignored.
- The selection does not break ties stably. numpy's default `argsort` is not
  stable and its output is reversed. So the selection is proved correct
  for every ascending argsort of the scores, and nothing is claimed about
  the order of equal scores.
- K is the fixed constant 5 (`top_results`). `TopIndices` takes any `k`,
  and its length is `min(k, n)`.

## Model

| member | source | states |
|---|---|---|
| PyStr.Split | RAG_Based_AI_Assistant/mp3_to_json.py:26 | `s.split(sep)` has at least one field. Joining the fields with `sep` gives back `s`. No field contains `sep`. There are two or more fields exactly when `sep` occurs in `s`. The first field is the text before the leftmost occurrence, and the remaining fields are the split of the text after it, so later fields are fixed too. |
| PyStr.SplitJoin | RAG_Based_AI_Assistant/mp3_to_json.py:26-29 | Converse of the join property. With a one-character separator that no field contains, splitting the joined string gives back exactly the fields. |
| PyStr.DropLast | RAG_Based_AI_Assistant/mp3_to_json.py:29 | `s[:-n]` is a prefix of `s`. It has `n` fewer characters, or is empty when `s` is shorter than `n`. |
| VideoToMp3.TutorialNumber | RAG_Based_AI_Assistant/video_to_mp3.py:10-11 | The number exists exactly when the part of the name before the first ` [` contains ` #`; otherwise `IndexError`. It is the text after that first ` #`, up to the next ` #` or the end of that part. For a name without ` [` it reads from the whole name, so a title after ` ｜ ` stays in the number. |
| VideoToMp3.NumberBetween | RAG_Based_AI_Assistant/video_to_mp3.py:11 | With the first ` [` at `p` and the first ` #` at `n` before it, and no further ` #` before `p`, the number is exactly the text between the ` #` and the ` [`. |
| VideoToMp3.NumberToEnd | RAG_Based_AI_Assistant/video_to_mp3.py:11 | With no ` [` in the name, the first ` #` at `n` and no further ` #`, the number is everything after the ` #`, including any title. |
| VideoToMp3.NumberOfPartExample | RAG_Based_AI_Assistant/video_to_mp3.py:10-11 | `Tutorial #12 [Part 1].mp4` gives `12`. |
| VideoToMp3.NumberNotCutAtTitleExample | RAG_Based_AI_Assistant/video_to_mp3.py:11 | The number is not cut at ` ｜ `. `Tutorial #12 ｜ Intro.mp4` gives `12 ｜ Intro.mp4`. |
| VideoToMp3.BaseName | RAG_Based_AI_Assistant/video_to_mp3.py:13-15 | The base name is a prefix of the filename and never contains ` ｜ `. It is the whole name exactly when ` ｜ ` is absent. Otherwise it ends at the first occurrence of ` ｜ `: no occurrence starts inside it, even one that overlaps a later one. |
| VideoToMp3.BaseNameExample | RAG_Based_AI_Assistant/video_to_mp3.py:14-15 | `Tutorial #12 ｜ Intro.mp4` gives `Tutorial #12`. |
| VideoToMp3.AudioName | RAG_Based_AI_Assistant/video_to_mp3.py:26 | The audio name exists exactly when the tutorial number does. It is the number, `_`, the text before the first ` ｜ `, then `.mp3`. |
| VideoToMp3.FfmpegCommand | RAG_Based_AI_Assistant/video_to_mp3.py:23-27 | For each video the argument list is exactly `ffmpeg -i videos/<file> audios/<audio name>`. It fails exactly when the audio name does. |
| VideoToMp3.ConvertAll | RAG_Based_AI_Assistant/video_to_mp3.py:5-27 | One command per video, in listing order. After a crash, the next name in the listing is one without a tutorial number. Without a crash, every video gets a command. |
| VideoToMp3.CrashesIffSomeNameFails | RAG_Based_AI_Assistant/video_to_mp3.py:8-11 | The run crashes exactly when some name in the listing has no tutorial number. |
| Mp3ToJson.ParseAudioName | RAG_Based_AI_Assistant/mp3_to_json.py:24-29 | A name without `_` is skipped. Otherwise `number` is a `_`-free prefix followed by the first `_`. `title` is the second `_`-field minus its last 4 characters, and is empty when that field is shorter than 4. |
| Mp3ToJson.ParseRoundTrip | RAG_Based_AI_Assistant/mp3_to_json.py:23-29 | When `n` and `t` contain no `_`, parsing `n_t.mp3` gives back `(n, t)`. |
| Mp3ToJson.AudioNameParsesBack | RAG_Based_AI_Assistant/video_to_mp3.py:11-26 | Across the two scripts, when the number and base name contain no `_`, the audio name written for a video parses back to that video's number and base name. |
| Mp3ToJson.Chunks | RAG_Based_AI_Assistant/mp3_to_json.py:48-56 | One chunk per segment, in segment order. Each chunk carries the file's number and title and that segment's start, end and text. |
| Mp3ToJson.TranscribeAudio | RAG_Based_AI_Assistant/mp3_to_json.py:24-65 | Skipped exactly when the name has no `_`. Otherwise it writes `jsons/<audio>.json`, holding the transcript's full text and one chunk per segment tagged with the parsed number and title. |
| Mp3ToJson.ProcessAll | RAG_Based_AI_Assistant/mp3_to_json.py:19-66 | Exactly one output per listed name that contains `_`, and none for the others. Output `k` is the transcription document of the `k`-th such name. |
| Seq.MapUntilFailure | RAG_Based_AI_Assistant/video_to_mp3.py:8-11 | The `for` loop that an exception ends: the outputs of the leading elements that succeed, one per element and in order. It stops exactly when some element fails, and then the next element is the first that fails. |
| Seq.Filter | RAG_Based_AI_Assistant/mp3_to_json.py:22-24 | The `for` loop with an `if`: at most as many elements as the input, every kept element is in the input and passes the test, every passing element is kept, and nothing changes when all pass. Order is not stated here; `Seq.FilterConcat` fixes it. |
| Seq.FilterConcat | RAG_Based_AI_Assistant/mp3_to_json.py:22-24 | Filtering distributes over concatenation, so the processed files keep their listing order. |
| CreatingEmbeddings.TextBatch | RAG_Based_AI_Assistant/creating_embeddings.py:56 | A document's embedding request has one text per chunk, in chunk order. |
| CreatingEmbeddings.AttachFile | RAG_Based_AI_Assistant/creating_embeddings.py:59-63 | Chunk `i` gets id `next + i` and vector `i`, and its own fields are unchanged. With fewer vectors than chunks it raises at chunk index `len(embeddings)`. |
| CreatingEmbeddings.BuildFrom | RAG_Based_AI_Assistant/creating_embeddings.py:48-63 | Succeeds exactly when every document's response covers its chunks. The rows are the documents' chunks, file by file, with consecutive ids from the counter. On failure it names the first short document and the missing chunk index. |
| CreatingEmbeddings.Build | RAG_Based_AI_Assistant/creating_embeddings.py:41-63 | With the counter starting at 0, the `k`-th row overall has `chunk_id` `k` and holds the `k`-th chunk in file-then-chunk order. The table length is the total chunk count, so the ids are exactly `0 .. N-1`, each used once. |
| CreatingEmbeddings.BuildPositions | RAG_Based_AI_Assistant/creating_embeddings.py:56-63 | Chunk `i` of document `f` is the row at that document's offset plus `i`. The row carries the chunk unchanged, that position as id, and element `i` of the document's own embedding response. |
| CreatingEmbeddings.BuildFailsAt | RAG_Based_AI_Assistant/creating_embeddings.py:48-61 | When every document before `f` is covered and `f` is not, the run fails at document `f`, at the chunk position equal to the length of `f`'s response. |
| CreatingEmbeddings.BuildTable | RAG_Based_AI_Assistant/creating_embeddings.py:41-63 | The script's nested loops with a mutable counter that is never reset. They produce exactly the recursive `Build` result, including the same error. |
| Inference.QueryEmbedding | RAG_Based_AI_Assistant/inference.py:46 | The query vector is element 0 of the response to the one-element batch `[query]`. It is an `IndexError` when the response is empty. |
| Inference.Reverse | RAG_Based_AI_Assistant/inference.py:53 | `[::-1]`: the same length, with element `i` taken from position `n - 1 - i`. |
| Inference.Take | RAG_Based_AI_Assistant/inference.py:53 | `[:top_results]`: a prefix of length `min(k, n)`. |
| Inference.TopIndices | RAG_Based_AI_Assistant/inference.py:52-53 | For any ascending argsort, `argsort()[::-1][:k]` has `min(k, n)` distinct valid row positions, in non-increasing score order. Every row left out scores no higher than every selected row. |
| Inference.RowsAt | RAG_Based_AI_Assistant/inference.py:56 | `df.loc[idx]` on the default `0..n-1` index gives the table rows at `idx`, in that order, with every field intact, each under its own index label. |
| Inference.Retrieve | RAG_Based_AI_Assistant/inference.py:52-56 | The frame for the prompt holds `min(5, n)` distinct table rows, each under its own label with every field intact. Their scores do not increase, and no row left out scores above a selected one. |
| Inference.ArgSort | RAG_Based_AI_Assistant/inference.py:53 | Every score list has an ascending argsort, so the selection is defined for every table. Built by stable insertion. |

## Left out

- A dimension mismatch: embedding vectors of different lengths make
  `np.vstack` raise `ValueError` (`inference.py:51`), and a query vector
  of another length makes `cosine_similarity` raise `ValueError`. Both
  happen inside the score computation, which is not modelled.
- I/O: ffmpeg runs, Whisper, HTTP calls to the Ollama server, file reads
  and writes, JSON and joblib serialisation, and `print` tracing. Their
  results are parameters, or are not modelled.
- The ffmpeg exit status: `subprocess.run` is called without `check`, so a
  failed conversion does not stop the script. The model records only the
  commands issued.
- The cosine-similarity computation (`inference.py:51`) is floating point
  inside scikit-learn. The scores are a given `seq<real>` with one score
  per row. An empty table is saved as a frame with no columns
  (`creating_embeddings.py:68`), so the lookup `df['embedding']` raises
  `KeyError` before `np.vstack` or any selection runs. That failure lies
  before the scores exist and is not modelled.
- The order of equal scores in the selection: numpy's default sort is not
  stable.
- The prompt text and the answer request (`inference.py:62-93`): fixed
  string formatting and an HTTP call.
- `unused_code/speech_to_text.py`: an unused variant of the segment
  mapping that `Mp3ToJson.Chunks` already covers.
- Python's `ValueError` for an empty separator: every call site splits on
  a non-empty literal, so `PyStr.Split` requires a non-empty separator.
- Floating-point timestamps and embedding values are modelled as `real`.
  They are only copied, never computed.
- The `Run` result of `VideoToMp3.ConvertAll` records that the script
  crashed, but not the exception text.
