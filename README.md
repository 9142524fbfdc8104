# Melody generation token pipeline, modelled in Dafny

This project models the symbolic core of an LSTM melody generator, meaning everything that
runs between the music library and the neural network.

- **Preprocessing.** Folk-song scores become a time-series token stream:
  - every note becomes its MIDI number, and every rest becomes `r`;
  - each further time step of the event adds a continuation token `_`.
- **Corpus and vocabulary.** Songs are concatenated into one corpus, each followed by a block
  of `/` delimiters. Each distinct token is numbered by its sorted position.
- **Training windows.** The mapped stream is cut into (window, next token) pairs.
- **Generation.** The `MelodyGenerator` class keeps a buffer of token indices. Each step it
  truncates the buffer to its last `max_sequence_len` entries and appends one drawn index. It
  stops when the drawn index decodes to `/`.
- **Decoding.** `save_melody` turns the generated tokens back into timed notes and rests.

## Files

| file | contents |
|---|---|
| `wrappers.dfy` | `Option`, `Result`, and `Error` for the exceptions the program raises |
| `strings.dfy` | The Python built-ins the pipeline relies on: `str.split()` with the full `str.isspace()` set, `" ".join`, `s * n`, `[x] * n`, string order, and `sorted(set(...))` |
| `numerals.dfy` | `str(int)` and `int(str)` |
| `preprocessing.dfy` | `preprocessing.py`: encoding, the duration filter, the corpus fold, the vocabulary, integer mapping and training windows |
| `melody_generator.dfy` | `MelodyGenerator.py`: the generator class, the generation loop and the decoder |

## Conventions

- **Durations.** Durations are whole sixteenths, so a quarter-length of 0.25 is 1. The accepted
  quarter-lengths 0.25 … 4 become `[1, 2, 3, 4, 6, 8, 12, 16]`. `int(d / time_step)` becomes
  integer division by a positive time step.
- **Events.** An event is `Note(pitch, duration)` or `Rest(duration)`.
- **Imperative code.** The loops of the source are methods with loops. Most are proved equal
  to a function: `SongTokens`, `Database`, `SortedSet`/`Rank`, `MapSymbols`, `Steps`/`Generate`
  and `DecodeFrom`/`Decode`, and the properties are proved about those functions. Two are
  specified directly: `HasAcceptableDuration` by an if-and-only-if on the durations, and
  `Windows` by the predicate `IsTrainingData`.
- **Errors.** Python exceptions become `Err` values:
  - `KeyError(token)` for a token missing from the mapping;
  - `IndexError` when the drawn index is no value of the mapping;
  - `ValueError(symbol)` when a pending symbol is neither `r` nor an integer.
- **Decoder.** The decoder is modelled as written. It is not an exact inverse of the encoder:
  - the symbol at the last position is never emitted;
  - a final `_` is not counted;
  - `_` tokens before the first onset are counted into the first event.

  `save_melody` is meant to turn the time series that `encode_song` writes back into notes and
  rests, and its `i + 1 == len(melody)` branch is an attempt to flush the pending event at the
  end of the sequence. As written, `60 _ _ r _` decodes to a rest of one step, not two, and the
  model follows the code (`DecodeExample`). The corrected decoder is under "Findings".

## Model

| member | source | states |
|---|---|---|
| Strings.Split | preprocessing.py:149 | `str.split()` with no argument: the string is scanned for maximal runs of characters outside the `str.isspace()` set, and runs of whitespace separate them. Every word returned is non-empty and holds no whitespace. |
| Strings.SplitCharacters | preprocessing.py:149 | Splitting loses only whitespace: the words written one after another are exactly the string's non-whitespace characters, in order. |
| Strings.SplitJoin | preprocessing.py:90 | Whitespace-splitting the space-joined tokens gives back exactly the token list, provided every token is a non-empty, space-free word. |
| Strings.Less | preprocessing.py:150 | Python's `<` on strings, the order `sorted` uses: code point by code point, with a proper prefix before its extensions. It never holds between equal strings, and it always holds from a proper prefix to the longer string. |
| Strings.SortedSet | preprocessing.py:150 | `sorted(set(ts))` is strictly increasing in Python string order, and holds exactly the strings occurring in `ts`. |
| Strings.SortedSetCanonical | preprocessing.py:150 | The vocabulary depends only on which tokens occur, not on their order or repetition, so building it twice from the same tokens gives the same list. |
| Strings.SortedUnique | preprocessing.py:150 | Two strictly sorted lists with the same elements are equal. |
| Numerals.IntToString | preprocessing.py:90 | `str(midi)` is a non-empty space-free token, and never `r`, `_` or `/`. |
| Numerals.ParseNumeral | MelodyGenerator.py:102 | `int(symbol)` (`ParseInt`) accepts surrounding whitespace (the `str.isspace()` characters except the separators U+001C to U+001F, which `int()` does not strip), one optional `+` or `-`, then digits with single underscores only between two digits; anything else is a `ValueError`. A plain numeral reads as the value of its digits. |
| Numerals.ParseIntAccepts | MelodyGenerator.py:102 | Any string `int()` accepts holds a digit, and otherwise only the whitespace `int()` strips, signs, digits and underscores. |
| Numerals.SeparatorRejected | MelodyGenerator.py:102 | A string holding one of U+001C to U+001F is a `ValueError` for `int()`, even though `str.split()` treats those characters as whitespace. |
| Numerals.ParseIntToString | MelodyGenerator.py:102 | `int(str(n)) == n` for every integer `n`. |
| Preprocessing.StepCount | preprocessing.py:82 | `int(duration / time_step)` is the floor of the quotient: k steps of `time_step` fit in the duration and k+1 do not. |
| Preprocessing.Symbol | preprocessing.py:76-79 | An event's onset token is a non-empty word without whitespace, is never `_`, and is `r` exactly for rests; a note's is `str(pitch.midi)`. |
| Preprocessing.SongTokens | preprocessing.py:73-88 | The token list `encoded_song` collects, each event's tokens in event order. Every token is a non-empty word without whitespace, and the list never starts with a continuation `_`. |
| Preprocessing.EventTokens | preprocessing.py:82-88 | An event of k = duration / time_step steps contributes k tokens: its symbol first, then k-1 `_`. An event under one step contributes nothing. |
| Preprocessing.SongTokensSnoc | preprocessing.py:73-88 | The events' tokens are laid down in event order: appending an event appends its tokens. |
| Preprocessing.EncodeSong | preprocessing.py:69-91 | The encoded string is the song's tokens joined by single spaces, and splitting it returns exactly those tokens. |
| Preprocessing.EncodedLength | preprocessing.py:73-88 | The token count equals the sum of the events' step counts. |
| Preprocessing.EncodedOnsets | preprocessing.py:73-88 | The number of non-`_` tokens equals the number of events lasting at least one step. |
| Preprocessing.HasAcceptableDuration | preprocessing.py:39-45 | Returns true iff every note and rest has a duration in the accepted list; otherwise it returns false at the first offending event. |
| Preprocessing.DelimiterTokens | preprocessing.py:102 | `"/ " * L` splits into exactly L `/` tokens (none when L ≤ 0), and ends in a space when non-empty. |
| Preprocessing.DatabaseShape | preprocessing.py:102-113 | `Database`, the `songs += song + " " + new_song_delimiter` fold: its length is the songs' total length plus, per song, one space and the delimiter block, and with at least one song it ends with the delimiter block. |
| Preprocessing.DatabaseSplit | preprocessing.py:102-113 | Splitting the merged corpus gives each song's tokens followed by exactly L `/` tokens, song after song. |
| Preprocessing.CreateSingleSongDatabase | preprocessing.py:100-120 | The corpus is the fold of `song + " " + "/ " * L` over the songs, and splits as `DatabaseSplit` states. |
| Preprocessing.InjectiveValues | preprocessing.py:146-159 | A mapping with no two keys sharing an index has as many distinct indices as keys. |
| Preprocessing.VocabularyOnto | preprocessing.py:146-159 | A mapping as `create_mapping` writes it (injective, every index below its size) uses every index `0 … size-1`. |
| Preprocessing.RankInSorted | preprocessing.py:150-155 | In the sorted vocabulary, entry i has exactly i distinct tokens below it. |
| Preprocessing.CreateMapping | preprocessing.py:146-159 | The keys are exactly the corpus tokens, and each key's index is the number of distinct tokens sorting below it. The values are exactly 0 … n-1, no two keys share one, and `a < b` iff `index(a) < index(b)`. |
| Preprocessing.MapSymbols | preprocessing.py:170-174 | Succeeds iff every token is a key, giving a list of the same length whose entry i is `mappings[token_i]`. Otherwise it fails with `KeyError` naming the first missing token. |
| Preprocessing.ConvertSongToInt | preprocessing.py:162-176 | The loop's result equals `MapSymbols` of the split corpus, both the value and the error. |
| Preprocessing.MapSymbolsAppend | preprocessing.py:170-174 | Mapping a concatenation maps each part: the first part's `KeyError` wins, then the second's, and on success the indices are concatenated. |
| Preprocessing.GenerateTrainSequences | preprocessing.py:178-204 | Fails iff the mapping fails, with the same `KeyError`. Otherwise it returns the stream's training pairs as `Windows` states them. |
| Preprocessing.Windows | preprocessing.py:185-192 | For a stream of N indices it produces max(0, N-L) pairs, where window i is `stream[i:i+L]` and target i is `stream[i+L]`. |
| Preprocessing.WindowThenTarget | preprocessing.py:185-192 | Window i followed by target i is the contiguous slice `stream[i:i+L+1]`. |
| MelodyGeneration.LastEntries | MelodyGenerator.py:53 | Python's `s[-k:]` is a suffix of `s`: the last k entries for k > 0 (all of `s` when shorter), all of `s` for k = 0, and all but the first -k entries for k < 0. |
| MelodyGeneration.ReverseLookup | MelodyGenerator.py:68 | With an injective mapping, the drawn index decodes to the unique key holding it: the result is a key mapped to the index, and any such key is the result. It fails (the `IndexError` of `[...][0]`) iff no key holds it. |
| MelodyGeneration.MappedPrefix | MelodyGenerator.py:45-48 | Mapping n start symbols followed by mapped tokens gives n copies of the index of `/` followed by the tokens' indices. |
| MelodyGeneration.InitialBuffer | MelodyGenerator.py:45-48 | The buffer starts as SEQUENCE_LENGTH copies of the index of `/`, followed by the seed's indices. |
| MelodyGeneration.UnmappedSeed | MelodyGenerator.py:48 | A seed token missing from the mapping fails generation with `KeyError` naming the first such token, before any step. |
| MelodyGeneration.MissingDelimiter | MelodyGenerator.py:20-48 | Without `/` in the mapping, generation fails with `KeyError("/")`. |
| MelodyGeneration.Steps | MelodyGenerator.py:50-75 | The loop's iterations from a given step, as a function of the buffer, the melody so far and the drawing oracle. Once the seed is mapped, the only exception the loop can raise is the `IndexError` of a drawn index no key holds. |
| MelodyGeneration.GenerateErrors | MelodyGenerator.py:40-77 | `Generate` is `generate_melody` as a function of the mapping, the seed, the budget and the oracle. It raises only the `IndexError` of a drawn index, or a `KeyError` naming `/` or a seed token. |
| MelodyGeneration.StepsMelody | MelodyGenerator.py:50-75 | The iterations from any step keep the melody so far as a prefix and append at most one symbol each. The melody grows by the full budget iff no delimiter was drawn. |
| MelodyGeneration.StepsSymbols | MelodyGenerator.py:68-75 | Every symbol the iterations append is a key of the mapping and is never `/`. |
| MelodyGeneration.StepsBuffer | MelodyGenerator.py:53-72 | A run stopped by `/` ends its buffer with the index of `/`. With a positive `max_sequence_len` and at least one iteration, the final buffer holds at most `max_sequence_len + 1` indices (the initial buffer of 64 delimiters plus the seed may be longer). |
| MelodyGeneration.GeneratedMelody | MelodyGenerator.py:43-77 | The returned melody starts with the seed tokens unchanged, followed by at most `num_steps` generated keys, none of them `/`. Its length is `len(seed) + num_steps` iff no delimiter was drawn. |
| MelodyGeneration.GeneratedBuffer | MelodyGenerator.py:53-66 | Each iteration truncates and then appends exactly one index, including the terminating delimiter. So, when `max_sequence_len > 0` and `num_steps > 0`, the final buffer holds at most `max_sequence_len + 1` indices (otherwise nothing truncates the initial 64 delimiters plus the seed). After a stop, the buffer ends with the delimiter's index. |
| MelodyGeneration.StepsSucceed | MelodyGenerator.py:50-75 | When every index the oracle draws is held by some key, the `[0]` of line 68 never fails: the loop ends without error, at a stop or at the end of its budget. |
| MelodyGeneration.GenerateSucceeds | MelodyGenerator.py:40-77 | For a vocabulary as `create_mapping` writes it (injective, every index below its size; by `VocabularyOnto` it then holds every such index), `/` and every seed symbol mapped, and an oracle that only draws indices in range, `generate_melody` raises nothing. Together with `GenerateErrors`, `UnmappedSeed` and `MissingDelimiter`, this says when generation fails and when it succeeds. |
| MelodyGeneration.AlwaysDelimiter | MelodyGenerator.py:68-72 | A predictor that always draws the index of `/` makes generation succeed at the first step, returning exactly the seed. |
| MelodyGeneration.MelodyGenerator.constructor | MelodyGenerator.py:11-22 | The generator keeps the given vocabulary and SEQUENCE_LENGTH start symbols `/`. |
| MelodyGeneration.MelodyGenerator.GenerateMelody | MelodyGenerator.py:40-77 | The loop, with its `break` on `/` and its early failures, returns exactly `Generate`'s melody or error. |
| MelodyGeneration.MelodyGenerator.SaveMelody | MelodyGenerator.py:79-112 | The decoding loop returns exactly `Decode(melody)`, including its `ValueError` for an unparsable pending symbol. |
| MelodyGeneration.MakeEvent | MelodyGenerator.py:96-102 | The event for a pending symbol: it has the given duration, and is a rest exactly when the symbol is `r`. When it fails, the symbol is not `r` and the error is `ValueError` naming it. |
| MelodyGeneration.DecodeFrom | MelodyGenerator.py:89-112 | The decoding loop from a position and a state (pending symbol, counter, events so far). It keeps the events so far, adds at most one event per remaining token, and raises only `ValueError`. The one-step facts, that a symbol or the last position emits the pending event with `step_duration * counter`, resets the counter to 1 and makes itself pending, and that a pending symbol neither `r` nor an integer stops decoding with that `ValueError`, are the proof steps `EmitOk` and `EmitErr`, used by the decoder lemmas below. |
| MelodyGeneration.Decode | MelodyGenerator.py:86-112 | `save_melody`'s decoding from `start_symbol = None` and `step_counter = 1`. It gives at most one event per token and raises only `ValueError`. |
| MelodyGeneration.DecodeExample | MelodyGenerator.py:89-112 | `60 _ _ r _` decodes to a note of three steps and a rest of one step, so the final `_` is not counted. |
| MelodyGeneration.LeadingContinuations | MelodyGenerator.py:86-112 | j leading `_` tokens are counted into the first event, whose counter starts at 1 + j. |
| MelodyGeneration.LeadingContinuationExample | MelodyGenerator.py:86-112 | `_ 60 _ r` decodes to a single note of three steps. |
| MelodyGeneration.SymbolEvent | MelodyGenerator.py:96-102 | An event's symbol, read back with the event's duration, rebuilds that event: a rest for `r`, otherwise a note with pitch `int(symbol)`. |
| MelodyGeneration.MakeEventOfSymbol | MelodyGenerator.py:96-102 | The same holds when the duration is `step_duration * counter` for an event of `counter` whole steps. |
| MelodyGeneration.DecodeContinuations | MelodyGenerator.py:111-112 | `_` tokens not in the last position only advance the step counter. |
| MelodyGeneration.LaidOut | preprocessing.py:82-88 | In the run-length tokens of a list of spans (a symbol held for k steps is the symbol then k-1 `_`), each span's continuations are followed by the next onset, and the last span by the one extra token. |
| MelodyGeneration.DecodeSpansFrom | MelodyGenerator.py:89-112 | From just after a span's onset, the decoder emits the events of that span and all later spans, stopping at the first `ValueError`, provided one more token follows the last span. |
| MelodyGeneration.DecodeSpans | MelodyGenerator.py:89-112 | Decoding the run-length tokens of well-formed spans followed by any one token gives the spans' events, or the first `ValueError`. |
| MelodyGeneration.DecodeSpansAlone | MelodyGenerator.py:91 | Without a following token the last span loses one step. A one-step last span is dropped entirely, because its onset is the last token. |
| MelodyGeneration.SongSpanTokens | preprocessing.py:73-88 | The encoding of a song whose events each last at least one step is the run-length encoding of its (symbol, step count) spans, and those spans are well formed. |
| MelodyGeneration.SongSpanEvents | MelodyGenerator.py:96-102 | The events the decoder builds from a quantized song's spans are exactly the song's events. |
| MelodyGeneration.DecodeEncoded | MelodyGenerator.py:89-112 | For every song whose durations are whole positive multiples of the step, decoding its encoding followed by any one token gives the song back. |
| MelodyGeneration.DecodeAcceptedSong | MelodyGenerator.py:89-112 | The same holds for every song with accepted durations at the default time step. |
| MelodyGeneration.ShortenLastSpans | MelodyGenerator.py:91 | Shortening a song's last event by one step (dropping it if it had one step) shortens its last span the same way. |
| MelodyGeneration.DecodeEncodedAlone | MelodyGenerator.py:91 | Decoding an encoding without a following token gives the song with its last event one step shorter. A one-step last event is dropped. |
| MelodyGeneration.FinalStepLost | MelodyGenerator.py:91 | Note 60 for three steps then a rest for two encode to `60 _ _ r _`. The decoder as written does not return that song, and the corrected decoder does. |
| MelodyGeneration.DecodeFlushing | MelodyGenerator.py:86-112 | The corrected decoder, whose end of sequence emits the pending event with its full count. It also gives at most one event per token and raises only `ValueError`. |
| MelodyGeneration.FlushingAppendsSentinel | MelodyGenerator.py:89-112 | The corrected decoder, which flushes the pending event at the end of the sequence, is the decoder as written run on the melody with one `_` appended. |
| MelodyGeneration.DecodeFlushingSpans | MelodyGenerator.py:89-112 | The corrected decoder gives the spans' events from their run-length tokens alone, with no following token. |
| MelodyGeneration.DecodeFlushingEncoded | MelodyGenerator.py:89-112 | The corrected decoder inverts the encoder on every song with whole positive step counts. |

## Left out

- File and directory I/O is not modelled: the dataset walk, `load`, writing the corpus and the
  encoded songs, and JSON dump/load of the mapping. The operations take and return the strings
  and maps instead.
- `preprocess` only orchestrates, and is not modelled: it filters, transposes, encodes and saves
  in file-walk order.
- `transpose` and key estimation are music21 pitch analysis, which is not part of this model.
  `song.flat.notesAndRests` is modelled as a list of notes and rests. Chords and other event
  types are left out.
- Durations are whole sixteenths, so triplets and other durations that are not multiples of a
  sixteenth are not modelled.
- A time step of 0 (a `ZeroDivisionError` in Python) is not modelled: the time step is a
  positive whole number of sixteenths.
- `keras.utils.to_categorical`, `vocabulary_size` and `np.array` in `generate_train_sequences`
  are not modelled. The model returns the integer windows and targets.
- `model.predict` and `_sample_with_temprature` are floating-point, a foreign network and a
  random generator. They are replaced by an oracle from (step, context) to an index, and the
  temperature argument is dropped. The oracle is any function. The sampler's promise, an
  index in `[0, len(mappings))`, is a precondition of `GenerateSucceeds` only.
- `stream.write` is not modelled: `SaveMelody` returns the event list.
- `int()` on non-ASCII Unicode digits is not modelled. `ParseInt` accepts ASCII digits with an
  optional sign, surrounding whitespace and single underscores between digits. Its whitespace
  is `str.isspace()` without U+001C to U+001F, which `int()` does not strip.
- Numerals.ParseIntToString: CPython's limit on converting integers with more than 4300 digits
  between `str` and `int` (a `ValueError`) is not modelled; the round trip is proved for
  integers of every size.
- Preprocessing.GenerateTrainSequences takes a window length `L ≥ 0`. A negative `L` is not
  modelled.
- MelodyGeneration.ReverseLookup requires an injective mapping. For a non-injective one, Python
  returns the first matching key in dictionary order, which the model does not track.
- MelodyGeneration.MelodyGenerator.GenerateMelody requires the generator's mapping to be a
  vocabulary as `create_mapping` writes it (injective, with indices `0 … n-1`), because the
  reverse lookup relies on this.
- MelodyGeneration.MelodyGenerator.constructor takes the mapping as loaded. The model path and
  the network are not fields; the network is the oracle passed to `GenerateMelody`.

## Findings

| source | as written | input that shows it | evidently intended | confidence | as-written member | corrected member |
|---|---|---|---|---|---|---|
| MelodyGenerator.py:91 | At the last position the decoder emits the pending event but never the last token's own symbol, and a final `_` is not counted, so decoding loses the song's last step | The song Note 60 for three steps then a rest for two steps encodes to `60 _ _ r _`, which decodes to a rest of one step | Decoding inverts encoding: the end of the sequence flushes the pending event with its full count | not executed; high (the decoder exists to turn `encode_song`'s output back into notes and rests, and the `i + 1 == len(melody)` branch shows the end of the sequence was meant to flush the pending event) | MelodyGeneration.FinalStepLost | MelodyGeneration.DecodeFlushingEncoded |

`MelodyGeneration.Decode`, `DecodeEncoded` and `DecodeEncodedAlone` state the behaviour as
written. `SaveMelody` follows it. `MelodyGeneration.DecodeFlushing` is the corrected decoder.
