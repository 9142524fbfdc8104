/** MelodyGenerator.py: the generation loop, which grows a buffer of token
    indices one drawn index at a time until the delimiter is drawn or the step
    budget runs out, and the decoder in save_melody, which turns the generated
    symbols back into timed notes and rests. */
module MelodyGeneration {
  import opened Wrappers
  import opened Strings
  import opened Numerals
  import opened Preprocessing

  // ---------------------------------------------------------------------------
  // generate_melody
  // ---------------------------------------------------------------------------

  /** Python's `s[-k:]`: the last k entries when k > 0, all of `s` when k == 0
      (as `-0` is `0`), and all but the first -k entries when k < 0. */
  function LastEntries<T>(s: seq<T>, k: int): (r: seq<T>)
    ensures |r| <= |s| && r == s[|s| - |r|..]
    ensures k > 0 ==> |r| == if k < |s| then k else |s|
    ensures k == 0 ==> r == s
    ensures k < 0 ==> |r| == if -k < |s| then |s| + k else 0
  {
    if k > 0 then (if k >= |s| then s else s[|s| - k..])
    else if k == 0 then s
    else if -k >= |s| then [] else s[-k..]
  }

  /** The network's prediction followed by the temperature sampler: given the step
      number and the context, the index drawn at that step. */
  type Oracle = (nat, seq<int>) -> int

  /** `[k for k, v in mappings.items() if v == index][0]`: the symbol whose index is
      `index`, or None where the list is empty and indexing it raises IndexError. */
  function ReverseLookup(mappings: map<string, int>, index: int): (r: Option<string>)
    requires Injective(mappings)
    ensures r.None? <==> index !in mappings.Values
    ensures r.Some? ==> r.value in mappings && mappings[r.value] == index
    ensures forall k :: k in mappings && mappings[k] == index ==> r == Some(k)
  {
    if index in mappings.Values then Some(var k :| k in mappings && mappings[k] == index; k) else None
  }

  /** What generation ends with: the melody, the index buffer, and whether the delimiter stopped it. */
  datatype Run = Run(melody: seq<string>, buffer: seq<int>, stoppedAtDelimiter: bool)

  /** The iterations from `step` on: truncate the buffer to its last `maxSequenceLen`
      entries, append the drawn index, stop if it decodes to `"/"`, else append the symbol. */
  function Steps(mappings: map<string, int>, buffer: seq<int>, melody: seq<string>,
                 step: nat, numSteps: nat, maxSequenceLen: int, predict: Oracle): (r: Result<Run, Error>)
    requires Injective(mappings)
    ensures r.Err? ==> r.error == IndexError
    decreases numSteps - step
  {
    if step >= numSteps then Ok(Run(melody, buffer, false))
    else
      var context := LastEntries(buffer, maxSequenceLen);
      var drawn := predict(step, context);
      match ReverseLookup(mappings, drawn)
      case None => Err(IndexError)
      case Some(symbol) =>
        if symbol == "/" then Ok(Run(melody, context + [drawn], true))
        else Steps(mappings, context + [drawn], melody + [symbol], step + 1, numSteps, maxSequenceLen, predict)
  }

  /** generate_melody: the buffer starts as SEQUENCE_LENGTH delimiters and the seed tokens,
      all mapped to indices, and the melody as the seed tokens; then at most
      `num_steps` iterations run. */
  function Generate(mappings: map<string, int>, seed: string, numSteps: int, maxSequenceLen: int,
                    predict: Oracle): Result<Run, Error>
    requires Injective(mappings)
  {
    var tokens := Split(seed);
    match MapSymbols(mappings, Repeat("/", SequenceLength) + tokens)
    case Err(e) => Err(e)
    case Ok(buffer) => Steps(mappings, buffer, tokens, 0, if numSteps > 0 then numSteps else 0, maxSequenceLen, predict)
  }

  function MelodyOf(g: Result<Run, Error>): Result<seq<string>, Error> {
    match g
    case Ok(run) => Ok(run.melody)
    case Err(e) => Err(e)
  }

  /** What the iterations from `step` on do to the length of the melody: it keeps the
      melody so far as a prefix, grows by at most one symbol per iteration, and by the
      whole budget exactly when no delimiter was drawn. */
  lemma {:induction false} StepsMelody(mappings: map<string, int>, buffer: seq<int>, melody: seq<string>,
                                       step: nat, numSteps: nat, maxSequenceLen: int, predict: Oracle)
    requires Injective(mappings) && step <= numSteps
    ensures var g := Steps(mappings, buffer, melody, step, numSteps, maxSequenceLen, predict);
      g.Ok? ==>
        && |melody| <= |g.value.melody| <= |melody| + (numSteps - step)
        && g.value.melody[..|melody|] == melody
        && (|g.value.melody| == |melody| + (numSteps - step) <==> !g.value.stoppedAtDelimiter)
    decreases numSteps - step
  {
    if step < numSteps {
      var context := LastEntries(buffer, maxSequenceLen);
      var drawn := predict(step, context);
      var found := ReverseLookup(mappings, drawn);
      if found.Some? && found.value != "/" {
        var melody' := melody + [found.value];
        var g := Steps(mappings, context + [drawn], melody', step + 1, numSteps, maxSequenceLen, predict);
        assert Steps(mappings, buffer, melody, step, numSteps, maxSequenceLen, predict) == g;
        StepsMelody(mappings, context + [drawn], melody', step + 1, numSteps, maxSequenceLen, predict);
        if g.Ok? {
          var m := g.value.melody;
          assert m[..|melody'|] == melody';
          assert melody'[..|melody|] == melody;
          assert m[..|melody|] == m[..|melody'|][..|melody|];
        }
      } else if found.Some? {
        assert Steps(mappings, buffer, melody, step, numSteps, maxSequenceLen, predict)
            == Ok(Run(melody, context + [drawn], true));
      }
    }
  }

  /** The symbols the iterations from `step` on append are never `"/"` and are keys of the mapping. */
  lemma {:induction false} StepsSymbols(mappings: map<string, int>, buffer: seq<int>, melody: seq<string>,
                                        step: nat, numSteps: nat, maxSequenceLen: int, predict: Oracle)
    requires Injective(mappings) && step <= numSteps
    ensures var g := Steps(mappings, buffer, melody, step, numSteps, maxSequenceLen, predict);
      g.Ok? ==> forall j :: |melody| <= j < |g.value.melody| ==>
                  g.value.melody[j] != "/" && g.value.melody[j] in mappings
    decreases numSteps - step
  {
    if step < numSteps {
      var context := LastEntries(buffer, maxSequenceLen);
      var drawn := predict(step, context);
      var found := ReverseLookup(mappings, drawn);
      if found.Some? && found.value != "/" {
        var melody' := melody + [found.value];
        var g := Steps(mappings, context + [drawn], melody', step + 1, numSteps, maxSequenceLen, predict);
        assert Steps(mappings, buffer, melody, step, numSteps, maxSequenceLen, predict) == g;
        StepsSymbols(mappings, context + [drawn], melody', step + 1, numSteps, maxSequenceLen, predict);
        StepsMelody(mappings, context + [drawn], melody', step + 1, numSteps, maxSequenceLen, predict);
        if g.Ok? {
          assert g.value.melody[|melody|] == g.value.melody[..|melody'|][|melody|] == found.value;
        }
      }
    }
  }

  /** What the iterations from `step` on do to the buffer: a run stopped by `"/"` ends with
      its index, and with a positive `max_sequence_len` and at least one iteration the buffer
      holds at most `max_sequence_len + 1` indices. */
  lemma {:induction false} StepsBuffer(mappings: map<string, int>, buffer: seq<int>, melody: seq<string>,
                                       step: nat, numSteps: nat, maxSequenceLen: int, predict: Oracle)
    requires Injective(mappings) && step <= numSteps
    ensures var g := Steps(mappings, buffer, melody, step, numSteps, maxSequenceLen, predict);
      g.Ok? ==>
        && (g.value.stoppedAtDelimiter ==>
              "/" in mappings && g.value.buffer != [] && g.value.buffer[|g.value.buffer| - 1] == mappings["/"])
        && (maxSequenceLen > 0 && step < numSteps ==> |g.value.buffer| <= maxSequenceLen + 1)
    decreases numSteps - step
  {
    if step < numSteps {
      var context := LastEntries(buffer, maxSequenceLen);
      var drawn := predict(step, context);
      var found := ReverseLookup(mappings, drawn);
      if found.Some? && found.value != "/" {
        var melody' := melody + [found.value];
        assert Steps(mappings, buffer, melody, step, numSteps, maxSequenceLen, predict)
            == Steps(mappings, context + [drawn], melody', step + 1, numSteps, maxSequenceLen, predict);
        StepsBuffer(mappings, context + [drawn], melody', step + 1, numSteps, maxSequenceLen, predict);
      }
    }
  }

  /** The returned melody starts with the seed tokens unchanged; after them come at most
      `num_steps` generated symbols, none of them `"/"` and each a key of the mapping;
      it is exactly `num_steps` longer than the seed iff no delimiter was drawn. */
  lemma GeneratedMelody(mappings: map<string, int>, seed: string, numSteps: int, maxSequenceLen: int,
                        predict: Oracle)
    requires Injective(mappings)
    ensures var g := Generate(mappings, seed, numSteps, maxSequenceLen, predict);
      var tokens, budget := Split(seed), if numSteps > 0 then numSteps else 0;
      g.Ok? ==>
        && |tokens| <= |g.value.melody| <= |tokens| + budget
        && g.value.melody[..|tokens|] == tokens
        && (forall j :: |tokens| <= j < |g.value.melody| ==>
              g.value.melody[j] != "/" && g.value.melody[j] in mappings)
        && (|g.value.melody| == |tokens| + budget <==> !g.value.stoppedAtDelimiter)
  {
    var tokens := Split(seed);
    var mapped := MapSymbols(mappings, Repeat("/", SequenceLength) + tokens);
    if mapped.Ok? {
      StepsMelody(mappings, mapped.value, tokens, 0, if numSteps > 0 then numSteps else 0, maxSequenceLen, predict);
      StepsSymbols(mappings, mapped.value, tokens, 0, if numSteps > 0 then numSteps else 0, maxSequenceLen, predict);
    }
  }

  /** Every iteration appends exactly one index after truncating: with a positive
      `max_sequence_len` and at least one step, the final buffer holds at most
      `max_sequence_len + 1` indices, and a run stopped by the delimiter ends with its index. */
  lemma GeneratedBuffer(mappings: map<string, int>, seed: string, numSteps: int, maxSequenceLen: int,
                        predict: Oracle)
    requires Injective(mappings)
    ensures var g := Generate(mappings, seed, numSteps, maxSequenceLen, predict);
      g.Ok? ==>
        && (maxSequenceLen > 0 && numSteps > 0 ==> |g.value.buffer| <= maxSequenceLen + 1)
        && (g.value.stoppedAtDelimiter ==>
              "/" in mappings && g.value.buffer != [] && g.value.buffer[|g.value.buffer| - 1] == mappings["/"])
  {
    var tokens := Split(seed);
    var mapped := MapSymbols(mappings, Repeat("/", SequenceLength) + tokens);
    if mapped.Ok? {
      StepsBuffer(mappings, mapped.value, tokens, 0, if numSteps > 0 then numSteps else 0, maxSequenceLen, predict);
    }
  }

  /** When every index the oracle draws is held by some key, no iteration raises
      IndexError: the loop runs to a stop or to the end of its budget. */
  lemma {:induction false} StepsSucceed(mappings: map<string, int>, buffer: seq<int>, melody: seq<string>,
                                        step: nat, numSteps: nat, maxSequenceLen: int, predict: Oracle)
    requires Injective(mappings)
    requires forall s: nat, c: seq<int> :: predict(s, c) in mappings.Values
    ensures Steps(mappings, buffer, melody, step, numSteps, maxSequenceLen, predict).Ok?
    decreases numSteps - step
  {
    if step < numSteps {
      var context := LastEntries(buffer, maxSequenceLen);
      var drawn := predict(step, context);
      var symbol := ReverseLookup(mappings, drawn).value;
      if symbol != "/" {
        StepsSucceed(mappings, context + [drawn], melody + [symbol], step + 1, numSteps, maxSequenceLen, predict);
      }
    }
  }

  /** With a vocabulary holding every index below its size, `"/"` and every seed symbol
      mapped, and an oracle that only draws indices in range, generation raises nothing. */
  lemma GenerateSucceeds(mappings: map<string, int>, seed: string, numSteps: int, maxSequenceLen: int,
                         predict: Oracle)
    requires IsVocabulary(mappings)
    requires forall s: nat, c: seq<int> :: 0 <= predict(s, c) < |mappings|
    requires "/" in mappings
    requires forall i :: 0 <= i < |Split(seed)| ==> Split(seed)[i] in mappings
    ensures Generate(mappings, seed, numSteps, maxSequenceLen, predict).Ok?
  {
    VocabularyOnto(mappings);
    var tokens := Split(seed);
    InitialBuffer(mappings, tokens);
    var buffer := MapSymbols(mappings, Repeat("/", SequenceLength) + tokens).value;
    StepsSucceed(mappings, buffer, tokens, 0, if numSteps > 0 then numSteps else 0, maxSequenceLen, predict);
  }

  lemma MappedPrefix(mappings: map<string, int>, n: nat, tokens: seq<string>)
    requires "/" in mappings
    requires forall i :: 0 <= i < |tokens| ==> tokens[i] in mappings
    ensures var r := MapSymbols(mappings, Repeat("/", n) + tokens);
      && r.Ok?
      && r.value == Repeat(mappings["/"], n) + MapSymbols(mappings, tokens).value
  {
    MapSymbolsAppend(mappings, Repeat("/", n), tokens);
    MapRepeat(mappings, "/", n);
  }

  /** The initial buffer: SEQUENCE_LENGTH copies of the index of `"/"`, then the seed's indices. */
  lemma InitialBuffer(mappings: map<string, int>, tokens: seq<string>)
    requires "/" in mappings
    requires forall i :: 0 <= i < |tokens| ==> tokens[i] in mappings
    ensures var r := MapSymbols(mappings, Repeat("/", SequenceLength) + tokens);
      && r.Ok?
      && r.value == Repeat(mappings["/"], SequenceLength) + MapSymbols(mappings, tokens).value
  {
    MappedPrefix(mappings, SequenceLength, tokens);
  }

  /** A seed symbol missing from the mapping raises KeyError naming the first such symbol,
      before any step runs. */
  lemma UnmappedSeed(mappings: map<string, int>, seed: string, numSteps: int, maxSequenceLen: int,
                     predict: Oracle, i: nat)
    requires Injective(mappings) && "/" in mappings
    requires i < |Split(seed)| && Split(seed)[i] !in mappings
    requires forall j :: 0 <= j < i ==> Split(seed)[j] in mappings
    ensures Generate(mappings, seed, numSteps, maxSequenceLen, predict) == Err(KeyError(Split(seed)[i]))
  {
    var tokens := Split(seed);
    var symbols := Repeat("/", SequenceLength) + tokens;
    var r := MapSymbols(mappings, symbols);
    assert symbols[SequenceLength + i] == tokens[i];
    var k :| 0 <= k < |symbols| && symbols[k] !in mappings && r.error == KeyError(symbols[k])
             && forall j :: 0 <= j < k ==> symbols[j] in mappings;
    assert k >= SequenceLength;
    assert symbols[k] == tokens[k - SequenceLength];
    assert k == SequenceLength + i;
  }

  /** The only exceptions generation raises: the IndexError of a drawn index no key holds,
      and the KeyError of `"/"` or of a seed symbol. */
  lemma GenerateErrors(mappings: map<string, int>, seed: string, numSteps: int, maxSequenceLen: int,
                       predict: Oracle)
    requires Injective(mappings)
    ensures var g := Generate(mappings, seed, numSteps, maxSequenceLen, predict);
      g.Err? ==> g.error == IndexError || g.error == KeyError("/") || (g.error.KeyError? && g.error.key in Split(seed))
  {
    var tokens := Split(seed);
    var symbols := Repeat("/", SequenceLength) + tokens;
    var r := MapSymbols(mappings, symbols);
    if r.Err? {
      var k :| 0 <= k < |symbols| && symbols[k] !in mappings && r.error == KeyError(symbols[k]);
      if k >= SequenceLength {
        assert symbols[k] == tokens[k - SequenceLength];
      }
    }
  }

  /** Without `"/"` in the mapping the start symbols themselves raise KeyError. */
  lemma MissingDelimiter(mappings: map<string, int>, seed: string, numSteps: int, maxSequenceLen: int,
                         predict: Oracle)
    requires Injective(mappings) && "/" !in mappings
    ensures Generate(mappings, seed, numSteps, maxSequenceLen, predict) == Err(KeyError("/"))
  {
    var symbols := Repeat("/", SequenceLength) + Split(seed);
    var r := MapSymbols(mappings, symbols);
    assert symbols[0] == "/";
    var k :| 0 <= k < |symbols| && symbols[k] !in mappings && r.error == KeyError(symbols[k])
             && forall j :: 0 <= j < k ==> symbols[j] in mappings;
    assert k == 0;
  }

  /** A predictor that always yields the delimiter's index ends generation at the first
      step, and the melody is exactly the seed. */
  lemma AlwaysDelimiter(mappings: map<string, int>, seed: string, numSteps: int, maxSequenceLen: int,
                        predict: Oracle)
    requires Injective(mappings) && "/" in mappings
    requires forall i :: 0 <= i < |Split(seed)| ==> Split(seed)[i] in mappings
    requires numSteps > 0
    requires forall step, context :: predict(step, context) == mappings["/"]
    ensures var g := Generate(mappings, seed, numSteps, maxSequenceLen, predict);
      g.Ok? && g.value.melody == Split(seed) && g.value.stoppedAtDelimiter
  {
    InitialBuffer(mappings, Split(seed));
    var found := ReverseLookup(mappings, mappings["/"]);
    assert found == Some("/");
  }

  /** The class holds the loaded mapping and the start symbols; the trained network is
      the `predict` oracle passed to each generation. */
  class MelodyGenerator {
    const mappings: map<string, int>
    const startSymbols: seq<string>

    ghost predicate Valid() {
      IsVocabulary(mappings) && startSymbols == Repeat("/", SequenceLength)
    }

    /** __init__ with the mapping already loaded from its file. */
    constructor (mappings: map<string, int>)
      requires IsVocabulary(mappings)
      ensures Valid() && this.mappings == mappings
    {
      this.mappings := mappings;
      this.startSymbols := Repeat("/", SequenceLength);
    }

    /** generate_melody with the prediction and the sampler replaced by `predict`. */
    method GenerateMelody(seed: string, numSteps: int, maxSequenceLen: int, predict: Oracle)
      returns (r: Result<seq<string>, Error>)
      requires Valid()
      ensures r == MelodyOf(Generate(mappings, seed, numSteps, maxSequenceLen, predict))
    {
      ghost var run := Generate(mappings, seed, numSteps, maxSequenceLen, predict);
      var tokens := Split(seed);
      var melody := tokens;
      var mapped := MapSymbols(mappings, startSymbols + tokens);
      if mapped.Err? {
        return Err(mapped.error);
      }
      var buffer := mapped.value;
      var budget := if numSteps > 0 then numSteps else 0;
      for step := 0 to budget
        invariant Steps(mappings, buffer, melody, step, budget, maxSequenceLen, predict) == run
      {
        buffer := LastEntries(buffer, maxSequenceLen);
        var outputInt := predict(step, buffer);
        buffer := buffer + [outputInt];
        var outputSymbol := ReverseLookup(mappings, outputInt);
        if outputSymbol.None? {
          return Err(IndexError);
        }
        if outputSymbol.value == "/" {
          break;
        }
        melody := melody + [outputSymbol.value];
      }
      return Ok(melody);
    }

    /** The decoding loop of save_melody; the stream it builds is returned instead of written. */
    method SaveMelody(melody: seq<string>, stepDuration: Sixteenths) returns (r: Result<seq<Event>, Error>)
      ensures r == Decode(melody, stepDuration)
    {
      var startSymbol: Option<string> := None;
      var stepCounter: nat := 1;
      var stream: seq<Event> := [];
      for i := 0 to |melody|
        invariant DecodeFrom(melody, i, DecodeState(startSymbol, stepCounter, stream), stepDuration)
               == Decode(melody, stepDuration)
      {
        var symbol := melody[i];
        if symbol != "_" || i + 1 == |melody| {
          if startSymbol.Some? {
            var quarterLengthDuration := stepDuration * stepCounter;
            var event: Event;
            if startSymbol.value == "r" {
              event := Rest(quarterLengthDuration);
            } else {
              var pitch := ParseInt(startSymbol.value);
              if pitch.None? {
                return Err(ValueError(startSymbol.value));
              }
              event := Note(pitch.value, quarterLengthDuration);
            }
            stream := stream + [event];
            stepCounter := 1;
          }
          startSymbol := Some(symbol);
        } else {
          stepCounter := stepCounter + 1;
        }
      }
      return Ok(stream);
    }
  }

  // ---------------------------------------------------------------------------
  // save_melody: decoding
  // ---------------------------------------------------------------------------

  /** The decoder's state: the pending symbol (`start_symbol`), the step counter, and the events so far. */
  datatype DecodeState = DecodeState(pending: Option<string>, counter: nat, events: seq<Event>)

  /** The event for a pending symbol: a rest for `"r"`, otherwise a note with pitch `int(symbol)`. */
  function MakeEvent(symbol: string, duration: Sixteenths): (r: Result<Event, Error>)
    ensures r.Ok? ==> r.value.duration == duration && (r.value.Rest? <==> symbol == "r")
    ensures r.Err? ==> symbol != "r" && r.error == ValueError(symbol)
  {
    if symbol == "r" then Ok(Rest(duration))
    else match ParseInt(symbol)
      case None => Err(ValueError(symbol))
      case Some(pitch) => Ok(Note(pitch, duration))
  }

  /** The decoding loop from position `i`: a symbol other than `"_"`, or the last position,
      emits the pending symbol (if any) with `step_duration * counter` and makes itself
      pending with the counter reset to 1; any other `"_"` increments the counter. */
  function DecodeFrom(melody: seq<string>, i: nat, st: DecodeState, stepDuration: Sixteenths): (r: Result<seq<Event>, Error>)
    requires i <= |melody|
    ensures r.Ok? ==> |st.events| <= |r.value| <= |st.events| + (|melody| - i)
    ensures r.Ok? ==> r.value[..|st.events|] == st.events
    ensures r.Err? ==> r.error.ValueError?
    decreases |melody| - i
  {
    if i == |melody| then Ok(st.events)
    else if melody[i] != "_" || i + 1 == |melody| then
      if st.pending.Some? then
        match MakeEvent(st.pending.value, stepDuration * st.counter)
        case Err(e) => Err(e)
        case Ok(event) => DecodeFrom(melody, i + 1, DecodeState(Some(melody[i]), 1, st.events + [event]), stepDuration)
      else DecodeFrom(melody, i + 1, DecodeState(Some(melody[i]), st.counter, st.events), stepDuration)
    else DecodeFrom(melody, i + 1, DecodeState(st.pending, st.counter + 1, st.events), stepDuration)
  }

  function Decode(melody: seq<string>, stepDuration: Sixteenths): (r: Result<seq<Event>, Error>)
    ensures r.Ok? ==> |r.value| <= |melody|
    ensures r.Err? ==> r.error.ValueError?
  {
    DecodeFrom(melody, 0, DecodeState(None, 1, []), stepDuration)
  }

  lemma SixtyParses()
    ensures MakeEvent("60", 3) == Ok(Note(60, 3))
  {
    assert IntToString(60) == "60";
    ParseIntToString(60);
  }

  /** The worked example: the trailing `"_"` is not counted, so the rest lasts one step, not two. */
  lemma DecodeExample()
    ensures Decode(["60", "_", "_", "r", "_"], DefaultTimeStep) == Ok([Note(60, 3), Rest(1)])
  {
    var m: seq<string> := ["60", "_", "_", "r", "_"];
    SixtyParses();
    var events := [Note(60, 3), Rest(1)];
    assert MakeEvent("r", 1) == Ok(Rest(1));
    assert [Note(60, 3)] + [Rest(1)] == events;
    assert DecodeFrom(m, 5, DecodeState(Some("_"), 1, events), 1) == Ok(events);
    assert DecodeFrom(m, 4, DecodeState(Some("r"), 1, [Note(60, 3)]), 1) == Ok(events);
    assert m[3] == "r" && [] + [Note(60, 3)] == [Note(60, 3)];
    assert DecodeFrom(m, 3, DecodeState(Some("60"), 3, []), 1) == Ok(events);
    assert DecodeFrom(m, 1, DecodeState(Some("60"), 1, []), 1) == Ok(events);
  }

  /** Continuation tokens before the first onset are counted into the first event:
      `j` leading `"_"` tokens start its counter at `1 + j`. */
  lemma LeadingContinuations(melody: seq<string>, j: nat, stepDuration: Sixteenths)
    requires j < |melody| && melody[j] != "_"
    requires forall p :: 0 <= p < j ==> melody[p] == "_"
    ensures Decode(melody, stepDuration)
         == DecodeFrom(melody, j + 1, DecodeState(Some(melody[j]), 1 + j, []), stepDuration)
  {
    DecodeContinuations(melody, 0, j, DecodeState(None, 1, []), stepDuration);
  }

  /** For instance, one leading `"_"` turns a note of two steps into one of three. */
  lemma LeadingContinuationExample()
    ensures Decode(["_", "60", "_", "r"], DefaultTimeStep) == Ok([Note(60, 3)])
  {
    var m: seq<string> := ["_", "60", "_", "r"];
    SixtyParses();
    LeadingContinuations(m, 1, DefaultTimeStep);
    assert DecodeFrom(m, 4, DecodeState(Some("r"), 1, [Note(60, 3)]), 1) == Ok([Note(60, 3)]);
    assert [] + [Note(60, 3)] == [Note(60, 3)];
    assert DecodeFrom(m, 3, DecodeState(Some("60"), 3, []), 1) == Ok([Note(60, 3)]);
  }

  // ---------------------------------------------------------------------------
  // Decoding run-length spans
  // ---------------------------------------------------------------------------

  /** A symbol held for `steps` time steps: its tokens are the symbol, then `steps - 1` times `"_"`. */
  datatype Span = Span(symbol: string, steps: nat)

  function SpanTokens(spans: seq<Span>): seq<string>
    decreases |spans|
  {
    if spans == [] then []
    else [spans[0].symbol] + Repeat("_", spans[0].steps - 1) + SpanTokens(spans[1..])
  }

  /** Every span is an onset (not `"_"`) lasting at least one step. */
  predicate WellFormed(spans: seq<Span>) {
    forall i :: 0 <= i < |spans| ==> spans[i].symbol != "_" && spans[i].steps > 0
  }

  /** The events the spans stand for, in order; the first symbol that is neither `"r"`
      nor an integer is a `ValueError`. */
  function SpanEvents(spans: seq<Span>, stepDuration: Sixteenths): Result<seq<Event>, Error>
    decreases |spans|
  {
    if spans == [] then Ok([])
    else
      match MakeEvent(spans[0].symbol, stepDuration * spans[0].steps)
      case Err(e) => Err(e)
      case Ok(event) =>
        match SpanEvents(spans[1..], stepDuration)
        case Err(e) => Err(e)
        case Ok(events) => Ok([event] + events)
  }

  /** `acc` followed by the events of `r`, or `r`'s error. */
  function Prepend(acc: seq<Event>, r: Result<seq<Event>, Error>): Result<seq<Event>, Error> {
    match r
    case Ok(events) => Ok(acc + events)
    case Err(e) => Err(e)
  }

  lemma SpanTokensCons(spans: seq<Span>, after: seq<string>)
    requires spans != []
    ensures SpanTokens(spans) + after
         == [spans[0].symbol] + (Repeat("_", spans[0].steps - 1) + SpanTokens(spans[1..]) + after)
  {
    ConsAssociative(spans[0].symbol, Repeat("_", spans[0].steps - 1), SpanTokens(spans[1..]), after);
  }

  lemma {:induction false} SpanTokensSnoc(spans: seq<Span>, s: Span)
    ensures SpanTokens(spans + [s]) == SpanTokens(spans) + [s.symbol] + Repeat("_", s.steps - 1)
    decreases |spans|
  {
    if spans == [] {
      assert [s][1..] == [];
    } else {
      assert (spans + [s])[1..] == spans[1..] + [s];
      SpanTokensSnoc(spans[1..], s);
    }
  }

  lemma ConsAssociative<T>(x: T, a: seq<T>, b: seq<T>, c: seq<T>)
    ensures [x] + a + b + c == [x] + (a + b + c)
  {
  }

  lemma SliceCons<T>(s: seq<T>, j: nat, x: T, t: seq<T>)
    requires j <= |s| && s[j..] == [x] + t
    ensures j < |s| && s[j] == x && s[j + 1..] == t
  {
    assert s[j + 1..] == s[j..][1..];
  }

  /** A slice that starts with `n` continuation tokens. */
  lemma ContinuationPrefix(s: seq<string>, i: nat, n: nat, t: seq<string>)
    requires i <= |s| && s[i..] == Repeat("_", n) + t
    ensures i + n <= |s| && s[i + n..] == t
    ensures forall p :: i <= p < i + n ==> s[p] == "_"
  {
    forall p | i <= p < i + n
      ensures s[p] == "_"
    {
      assert s[p] == s[i..][p - i];
    }
    assert s[i + n..] == s[i..][n..];
  }

  /** Continuation tokens that are not last only advance the counter. */
  lemma {:induction false} DecodeContinuations(melody: seq<string>, i: nat, j: nat, st: DecodeState, stepDuration: Sixteenths)
    requires i + j < |melody|
    requires forall p :: i <= p < i + j ==> melody[p] == "_"
    ensures DecodeFrom(melody, i, st, stepDuration)
         == DecodeFrom(melody, i + j, DecodeState(st.pending, st.counter + j, st.events), stepDuration)
    decreases j
  {
    if j > 0 {
      DecodeContinuations(melody, i + 1, j - 1, DecodeState(st.pending, st.counter + 1, st.events), stepDuration);
    }
  }

  /** One step of the decoder at an onset (or the last position) with a symbol pending
      whose event can be made. */
  lemma EmitOk(melody: seq<string>, j: nat, st: DecodeState, stepDuration: Sixteenths, event: Event)
    requires j < |melody| && (melody[j] != "_" || j + 1 == |melody|)
    requires st.pending.Some? && MakeEvent(st.pending.value, stepDuration * st.counter) == Ok(event)
    ensures DecodeFrom(melody, j, st, stepDuration)
         == DecodeFrom(melody, j + 1, DecodeState(Some(melody[j]), 1, st.events + [event]), stepDuration)
  {
  }

  /** The same step when the pending symbol is not an event: the error ends decoding. */
  lemma EmitErr(melody: seq<string>, j: nat, st: DecodeState, stepDuration: Sixteenths, e: Error)
    requires j < |melody| && (melody[j] != "_" || j + 1 == |melody|)
    requires st.pending.Some? && MakeEvent(st.pending.value, stepDuration * st.counter) == Err(e)
    ensures DecodeFrom(melody, j, st, stepDuration) == Err(e)
  {
  }

  lemma SpanEventsOk(spans: seq<Span>, stepDuration: Sixteenths, event: Event)
    requires spans != [] && MakeEvent(spans[0].symbol, stepDuration * spans[0].steps) == Ok(event)
    ensures SpanEvents(spans, stepDuration) == Prepend([event], SpanEvents(spans[1..], stepDuration))
  {
  }

  lemma SpanEventsErr(spans: seq<Span>, stepDuration: Sixteenths, e: Error)
    requires spans != [] && MakeEvent(spans[0].symbol, stepDuration * spans[0].steps) == Err(e)
    ensures SpanEvents(spans, stepDuration) == Err(e)
  {
  }

  lemma PrependTwice(acc: seq<Event>, event: Event, r: Result<seq<Event>, Error>)
    ensures Prepend(acc + [event], r) == Prepend(acc, Prepend([event], r))
  {
    if r.Ok? {
      assert acc + [event] + r.value == acc + ([event] + r.value);
    }
  }

  lemma WellFormedTail(spans: seq<Span>)
    requires spans != [] && WellFormed(spans)
    ensures WellFormed(spans[1..])
    ensures |spans| > 1 ==> spans[1..][0] == spans[1] && spans[1..][1..] == spans[2..]
  {
    assert forall p :: 0 <= p < |spans| - 1 ==> spans[1..][p] == spans[p + 1];
  }

  /** What follows the end of a span: the next span's onset, or the one token after the last span. */
  lemma TailOnset(melody: seq<string>, j: nat, rest: seq<Span>, last: string)
    requires j <= |melody| && melody[j..] == SpanTokens(rest) + [last]
    ensures j < |melody|
    ensures rest == [] ==> j + 1 == |melody|
    ensures rest != [] ==> melody[j] == rest[0].symbol
    ensures rest != [] ==> melody[j + 1..] == Repeat("_", rest[0].steps - 1) + SpanTokens(rest[1..]) + [last]
  {
    if rest == [] {
      assert SpanTokens(rest) + [last] == [last];
      SliceCons(melody, j, last, []);
    } else {
      SpanTokensCons(rest, [last]);
      SliceCons(melody, j, rest[0].symbol, Repeat("_", rest[0].steps - 1) + SpanTokens(rest[1..]) + [last]);
    }
  }

  /** How the first span lies from position `i` on, just after its onset: its continuations,
      then either the next span's onset (not a continuation) or, after the last span, the
      single token `last`, which ends the melody. */
  predicate SpanHead(melody: seq<string>, i: nat, spans: seq<Span>, last: string)
    requires spans != []
  {
    && spans[0].steps > 0 && i + spans[0].steps - 1 < |melody|
    && (forall p :: i <= p < i + spans[0].steps - 1 ==> melody[p] == "_")
    && (|spans| == 1 ==> melody[i + spans[0].steps - 1] == last && i + spans[0].steps == |melody|)
    && (|spans| > 1 ==> melody[i + spans[0].steps - 1] == spans[1].symbol != "_")
  }

  /** How the tokens after the onset of the first span lie: each span as SpanHead says,
      the next one starting just after the previous one's end. */
  predicate TailLaid(melody: seq<string>, i: nat, spans: seq<Span>, last: string)
    requires spans != []
    decreases |spans|
  {
    SpanHead(melody, i, spans, last)
    && (|spans| > 1 ==> TailLaid(melody, i + spans[0].steps, spans[1..], last))
  }

  /** The first span's part of TailLaid, read off the tokens. */
  lemma LaidStep(melody: seq<string>, i: nat, spans: seq<Span>, last: string)
    requires spans != [] && WellFormed(spans)
    requires i <= |melody| && melody[i..] == Repeat("_", spans[0].steps - 1) + SpanTokens(spans[1..]) + [last]
    ensures SpanHead(melody, i, spans, last)
    ensures |spans| > 1 ==>
              melody[i + spans[0].steps..] == Repeat("_", spans[1..][0].steps - 1) + SpanTokens(spans[1..][1..]) + [last]
  {
    var j := i + spans[0].steps - 1;
    ContinuationPrefix(melody, i, spans[0].steps - 1, SpanTokens(spans[1..]) + [last]);
    TailOnset(melody, j, spans[1..], last);
    if |spans| == 1 {
      SliceCons(melody, j, last, []);
    }
  }

  /** The run-length tokens of the spans, followed by `last`, lie as TailLaid says. */
  lemma {:induction false} LaidOut(melody: seq<string>, i: nat, spans: seq<Span>, last: string)
    requires spans != [] && WellFormed(spans)
    requires i <= |melody| && melody[i..] == Repeat("_", spans[0].steps - 1) + SpanTokens(spans[1..]) + [last]
    ensures TailLaid(melody, i, spans, last)
    decreases |spans|
  {
    LaidStep(melody, i, spans, last);
    if |spans| > 1 {
      WellFormedTail(spans);
      LaidOut(melody, i + spans[0].steps, spans[1..], last);
    }
  }

  /** Just after the onset of the first span, with its symbol pending, the decoder emits the
      events of all the spans, provided one more token follows the last of them. */
  lemma {:induction false} DecodeSpansFrom(melody: seq<string>, i: nat, spans: seq<Span>,
                                           acc: seq<Event>, last: string, stepDuration: Sixteenths)
    requires spans != [] && TailLaid(melody, i, spans, last)
    ensures DecodeFrom(melody, i, DecodeState(Some(spans[0].symbol), 1, acc), stepDuration)
         == Prepend(acc, SpanEvents(spans, stepDuration))
    decreases |spans|
  {
    var j := i + spans[0].steps - 1;
    var at := DecodeState(Some(spans[0].symbol), spans[0].steps, acc);
    DecodeContinuations(melody, i, spans[0].steps - 1, DecodeState(Some(spans[0].symbol), 1, acc), stepDuration);
    match MakeEvent(spans[0].symbol, stepDuration * spans[0].steps)
    case Err(e) =>
      EmitErr(melody, j, at, stepDuration, e);
      SpanEventsErr(spans, stepDuration, e);
    case Ok(event) =>
      EmitOk(melody, j, at, stepDuration, event);
      SpanEventsOk(spans, stepDuration, event);
      PrependTwice(acc, event, SpanEvents(spans[1..], stepDuration));
      if |spans| == 1 {
        EmptySpanEvents(spans[1..], event, stepDuration);
      } else {
        DecodeSpansFrom(melody, i + spans[0].steps, spans[1..], acc + [event], last, stepDuration);
      }
  }

  lemma EmptySpanEvents(spans: seq<Span>, event: Event, stepDuration: Sixteenths)
    requires spans == []
    ensures Prepend([event], SpanEvents(spans, stepDuration)) == Ok([event])
  {
    assert [event] + [] == [event];
  }

  /** The decoder inverts run-length encoding when one more token follows the last span:
      that token's own symbol is never emitted. */
  lemma DecodeSpans(spans: seq<Span>, last: string, stepDuration: Sixteenths)
    requires WellFormed(spans)
    ensures Decode(SpanTokens(spans) + [last], stepDuration) == SpanEvents(spans, stepDuration)
  {
    var melody := SpanTokens(spans) + [last];
    if spans == [] {
      assert melody == [last];
      assert Decode(melody, stepDuration) == DecodeFrom(melody, 1, DecodeState(Some(last), 1, []), stepDuration);
    } else {
      var later := Repeat("_", spans[0].steps - 1) + SpanTokens(spans[1..]) + [last];
      SpanTokensCons(spans, [last]);
      SliceCons(melody, 0, spans[0].symbol, later);
      assert Decode(melody, stepDuration)
          == DecodeFrom(melody, 1, DecodeState(Some(spans[0].symbol), 1, []), stepDuration);
      LaidOut(melody, 1, spans, last);
      DecodeSpansFrom(melody, 1, spans, [], last, stepDuration);
      match SpanEvents(spans, stepDuration)
      case Err(_) =>
      case Ok(events) =>
        assert [] + events == events;
    }
  }

  /** The spans with the last one a step shorter, and dropped when it had only one step. */
  function DropLastStep(spans: seq<Span>): seq<Span>
    requires spans != []
  {
    var last := spans[|spans| - 1];
    spans[..|spans| - 1] + if last.steps <= 1 then [] else [Span(last.symbol, last.steps - 1)]
  }

  lemma WellFormedInit(spans: seq<Span>)
    requires spans != [] && WellFormed(spans)
    ensures WellFormed(spans[..|spans| - 1])
  {
    assert forall p :: 0 <= p < |spans| - 1 ==> spans[..|spans| - 1][p] == spans[p];
  }

  /** A last span of one step: its onset is the last token, so its symbol is never emitted. */
  lemma LastSpanDropped(spans: seq<Span>, stepDuration: Sixteenths)
    requires spans != [] && WellFormed(spans) && spans[|spans| - 1].steps == 1
    ensures Decode(SpanTokens(spans), stepDuration) == SpanEvents(DropLastStep(spans), stepDuration)
  {
    var init, s := spans[..|spans| - 1], spans[|spans| - 1];
    assert spans == init + [s];
    WellFormedInit(spans);
    SpanTokensSnoc(init, s);
    assert Repeat("_", s.steps - 1) == [];
    assert SpanTokens(spans) == SpanTokens(init) + [s.symbol];
    assert DropLastStep(spans) == init + [] == init;
    DecodeSpans(init, s.symbol, stepDuration);
  }

  /** A last span of several steps: its final `"_"` is the last token and is not counted. */
  lemma LastSpanShortened(spans: seq<Span>, stepDuration: Sixteenths)
    requires spans != [] && WellFormed(spans) && spans[|spans| - 1].steps > 1
    ensures Decode(SpanTokens(spans), stepDuration) == SpanEvents(DropLastStep(spans), stepDuration)
  {
    var init, s := spans[..|spans| - 1], spans[|spans| - 1];
    var shorter := Span(s.symbol, s.steps - 1);
    assert spans == init + [s];
    WellFormedInit(spans);
    assert WellFormed(init + [shorter]) by {
      assert forall p :: 0 <= p < |init| ==> (init + [shorter])[p] == init[p];
    }
    SpanTokensSnoc(init, s);
    SpanTokensSnoc(init, shorter);
    assert Repeat("_", s.steps - 1) == Repeat("_", s.steps - 2) + ["_"];
    assert SpanTokens(spans) == SpanTokens(init + [shorter]) + ["_"];
    assert DropLastStep(spans) == init + [shorter];
    DecodeSpans(init + [shorter], "_", stepDuration);
  }

  /** Without a following token the final step is lost: decoding the spans' tokens gives
      the events of the spans with the last one a step shorter. */
  lemma DecodeSpansAlone(spans: seq<Span>, stepDuration: Sixteenths)
    requires spans != [] && WellFormed(spans)
    ensures Decode(SpanTokens(spans), stepDuration) == SpanEvents(DropLastStep(spans), stepDuration)
  {
    if spans[|spans| - 1].steps == 1 {
      LastSpanDropped(spans, stepDuration);
    } else {
      LastSpanShortened(spans, stepDuration);
    }
  }

  // ---------------------------------------------------------------------------
  // Decoding what the encoder produced
  // ---------------------------------------------------------------------------

  /** An event whose duration is a whole, positive number of time steps. */
  predicate Quantized(e: Event, timeStep: TimeStep) {
    StepCount(e, timeStep) > 0 && e.duration == StepCount(e, timeStep) * timeStep
  }

  predicate AllQuantized(song: seq<Event>, timeStep: TimeStep) {
    forall k :: 0 <= k < |song| ==> Quantized(song[k], timeStep)
  }

  /** An event's symbol read back with the event's duration is the event. */
  lemma SymbolEvent(e: Event)
    ensures MakeEvent(Symbol(e), e.duration) == Ok(e)
  {
    if e.Note? {
      ParseIntToString(e.pitch);
    }
  }

  lemma MakeEventOfSymbol(e: Event, timeStep: TimeStep)
    requires Quantized(e, timeStep)
    ensures MakeEvent(Symbol(e), timeStep * StepCount(e, timeStep)) == Ok(e)
  {
    assert timeStep * StepCount(e, timeStep) == e.duration;
    SymbolEvent(e);
  }

  /** The spans of a song: each event's symbol, held for the event's step count. */
  function SongSpans(song: seq<Event>, timeStep: TimeStep): (spans: seq<Span>)
    ensures |spans| == |song|
    decreases |song|
  {
    if song == [] then []
    else [Span(Symbol(song[0]), StepCount(song[0], timeStep))] + SongSpans(song[1..], timeStep)
  }

  /** Encoding a song whose events all last at least one step is run-length encoding of
      its spans, and those spans are well formed. */
  lemma {:induction false} SongSpanTokens(song: seq<Event>, timeStep: TimeStep)
    requires forall i :: 0 <= i < |song| ==> StepCount(song[i], timeStep) > 0
    ensures SongTokens(song, timeStep) == SpanTokens(SongSpans(song, timeStep))
    ensures WellFormed(SongSpans(song, timeStep))
    decreases |song|
  {
    if song != [] {
      assert forall i :: 0 <= i < |song| - 1 ==> song[1..][i] == song[i + 1];
      SongSpanTokens(song[1..], timeStep);
      assert SongSpans(song, timeStep)[1..] == SongSpans(song[1..], timeStep);
    }
  }

  /** The decoder's events for the spans of a quantized song are the song's events. */
  lemma {:induction false} SongSpanEvents(song: seq<Event>, timeStep: TimeStep)
    requires AllQuantized(song, timeStep)
    ensures SpanEvents(SongSpans(song, timeStep), timeStep) == Ok(song)
    decreases |song|
  {
    if song != [] {
      MakeEventOfSymbol(song[0], timeStep);
      assert AllQuantized(song[1..], timeStep) by {
        assert forall i :: 0 <= i < |song| - 1 ==> song[1..][i] == song[i + 1];
      }
      SongSpanEvents(song[1..], timeStep);
      assert SongSpans(song, timeStep)[1..] == SongSpans(song[1..], timeStep);
      assert [song[0]] + song[1..] == song;
    }
  }

  /** Decoding inverts encoding when one more token follows the encoded song: the
      decoder emits an event only when the token after it arrives. */
  lemma DecodeEncoded(song: seq<Event>, last: string, timeStep: TimeStep)
    requires AllQuantized(song, timeStep)
    ensures Decode(SongTokens(song, timeStep) + [last], timeStep) == Ok(song)
  {
    SongSpanTokens(song, timeStep);
    SongSpanEvents(song, timeStep);
    DecodeSpans(SongSpans(song, timeStep), last, timeStep);
  }

  /** An accepted song, encoded with the default time step, decodes back to itself when
      one more token follows it. */
  lemma DecodeAcceptedSong(song: seq<Event>, last: string)
    requires forall i :: 0 <= i < |song| ==> song[i].duration in AcceptableDurations
    ensures Decode(SongTokens(song, DefaultTimeStep) + [last], DefaultTimeStep) == Ok(song)
  {
    forall i | 0 <= i < |song|
      ensures Quantized(song[i], DefaultTimeStep)
    {
      AcceptedQuantized(song[i]);
    }
    DecodeEncoded(song, last, DefaultTimeStep);
  }

  /** With the default time step every accepted duration is a whole, positive number of steps. */
  lemma AcceptedQuantized(e: Event)
    requires e.duration in AcceptableDurations
    ensures Quantized(e, DefaultTimeStep)
  {
    assert e.duration > 0;
  }

  /** The same event with another duration. */
  function WithDuration(e: Event, duration: Sixteenths): Event {
    match e
    case Note(pitch, _) => Note(pitch, duration)
    case Rest(_) => Rest(duration)
  }

  /** Whole steps divide back exactly. */
  lemma WholeSteps(q: nat, timeStep: TimeStep)
    ensures (q * timeStep) / timeStep == q
  {
    var d := q * timeStep;
    var r := d / timeStep;
    if r < q {
      StepsBelow(r + 1, q, timeStep);
      assert false;
    } else if r > q {
      StepsBelow(q + 1, r, timeStep);
      assert false;
    }
  }

  lemma StepsBelow(a: nat, b: nat, timeStep: TimeStep)
    requires a <= b
    ensures a * timeStep <= b * timeStep && (a - 1) * timeStep + timeStep == a * timeStep
  {
    assert b * timeStep == a * timeStep + (b - a) * timeStep;
  }

  /** The song with its last event a step shorter, and dropped when it had only one step. */
  function ShortenLast(song: seq<Event>, timeStep: TimeStep): seq<Event>
    requires song != []
  {
    var e := song[|song| - 1];
    var k := StepCount(e, timeStep);
    song[..|song| - 1] + if k <= 1 then [] else [WithDuration(e, (k - 1) * timeStep)]
  }

  lemma {:induction false} SongSpansSnoc(init: seq<Event>, e: Event, timeStep: TimeStep)
    ensures SongSpans(init + [e], timeStep) == SongSpans(init, timeStep) + [Span(Symbol(e), StepCount(e, timeStep))]
    decreases |init|
  {
    if init == [] {
      assert [e][1..] == [];
    } else {
      assert (init + [e])[1..] == init[1..] + [e];
      SongSpansSnoc(init[1..], e, timeStep);
    }
  }

  /** Shortening a quantized event of `k > 1` steps by one step keeps its symbol and leaves
      `k - 1` whole steps. */
  lemma ShortenedEvent(e: Event, timeStep: TimeStep)
    requires Quantized(e, timeStep) && StepCount(e, timeStep) > 1
    ensures Symbol(WithDuration(e, (StepCount(e, timeStep) - 1) * timeStep)) == Symbol(e)
    ensures StepCount(WithDuration(e, (StepCount(e, timeStep) - 1) * timeStep), timeStep) == StepCount(e, timeStep) - 1
    ensures Quantized(WithDuration(e, (StepCount(e, timeStep) - 1) * timeStep), timeStep)
  {
    WholeSteps(StepCount(e, timeStep) - 1, timeStep);
  }

  lemma ShortenLastSpans(song: seq<Event>, timeStep: TimeStep)
    requires song != [] && AllQuantized(song, timeStep)
    ensures SongSpans(ShortenLast(song, timeStep), timeStep) == DropLastStep(SongSpans(song, timeStep))
  {
    var init, e := song[..|song| - 1], song[|song| - 1];
    var k := StepCount(e, timeStep);
    assert song == init + [e];
    SongSpansSnoc(init, e, timeStep);
    var spans := SongSpans(song, timeStep);
    assert spans[..|spans| - 1] == SongSpans(init, timeStep);
    if k <= 1 {
      assert ShortenLast(song, timeStep) == init + [] == init;
    } else {
      var shorter := WithDuration(e, (k - 1) * timeStep);
      ShortenedEvent(e, timeStep);
      SongSpansSnoc(init, shorter, timeStep);
      assert ShortenLast(song, timeStep) == init + [shorter];
    }
  }

  lemma ShortenLastQuantized(song: seq<Event>, timeStep: TimeStep)
    requires song != [] && AllQuantized(song, timeStep)
    ensures AllQuantized(ShortenLast(song, timeStep), timeStep)
  {
    var e := song[|song| - 1];
    var shortened := ShortenLast(song, timeStep);
    if StepCount(e, timeStep) > 1 {
      ShortenedEvent(e, timeStep);
    }
    assert forall i :: 0 <= i < |song| - 1 ==> shortened[i] == song[i];
  }

  /** Without a following token, decoding an encoded song loses the final step: a last
      event of one step is dropped, a longer one comes back one step short. */
  lemma DecodeEncodedAlone(song: seq<Event>, timeStep: TimeStep)
    requires song != [] && AllQuantized(song, timeStep)
    ensures Decode(SongTokens(song, timeStep), timeStep) == Ok(ShortenLast(song, timeStep))
  {
    SongSpanTokens(song, timeStep);
    DecodeSpansAlone(SongSpans(song, timeStep), timeStep);
    ShortenLastSpans(song, timeStep);
    ShortenLastQuantized(song, timeStep);
    SongSpanEvents(ShortenLast(song, timeStep), timeStep);
  }

  // ---------------------------------------------------------------------------
  // The decoder as evidently intended: the end of the sequence flushes
  // ---------------------------------------------------------------------------

  /** Like DecodeFrom, but the last position gets no special case: the end of the
      sequence emits the pending symbol with the counter as it stands. */
  function DecodeFlushingFrom(melody: seq<string>, i: nat, st: DecodeState, stepDuration: Sixteenths): (r: Result<seq<Event>, Error>)
    requires i <= |melody|
    ensures r.Ok? ==> |st.events| <= |r.value| <= |st.events| + (|melody| - i) + (if st.pending.Some? then 1 else 0)
    ensures r.Err? ==> r.error.ValueError?
    decreases |melody| - i
  {
    if i == |melody| then
      if st.pending.Some? then
        match MakeEvent(st.pending.value, stepDuration * st.counter)
        case Err(e) => Err(e)
        case Ok(event) => Ok(st.events + [event])
      else Ok(st.events)
    else if melody[i] != "_" then
      if st.pending.Some? then
        match MakeEvent(st.pending.value, stepDuration * st.counter)
        case Err(e) => Err(e)
        case Ok(event) => DecodeFlushingFrom(melody, i + 1, DecodeState(Some(melody[i]), 1, st.events + [event]), stepDuration)
      else DecodeFlushingFrom(melody, i + 1, DecodeState(Some(melody[i]), st.counter, st.events), stepDuration)
    else DecodeFlushingFrom(melody, i + 1, DecodeState(st.pending, st.counter + 1, st.events), stepDuration)
  }

  function DecodeFlushing(melody: seq<string>, stepDuration: Sixteenths): (r: Result<seq<Event>, Error>)
    ensures r.Ok? ==> |r.value| <= |melody|
    ensures r.Err? ==> r.error.ValueError?
  {
    DecodeFlushingFrom(melody, 0, DecodeState(None, 1, []), stepDuration)
  }

  /** The corrected decoder is the decoder as written, run on the melody with one more `"_"`
      appended: that sentinel is the "last position" that emits the final event in full. */
  lemma {:induction false} FlushingAppendsSentinel(melody: seq<string>, i: nat, st: DecodeState, stepDuration: Sixteenths)
    requires i <= |melody|
    ensures DecodeFlushingFrom(melody, i, st, stepDuration) == DecodeFrom(melody + ["_"], i, st, stepDuration)
    decreases |melody| - i
  {
    var extended := melody + ["_"];
    if i == |melody| {
      assert extended[i] == "_" && i + 1 == |extended|;
    } else {
      assert extended[i] == melody[i] && i + 1 < |extended|;
      if melody[i] != "_" {
        if st.pending.Some? {
          match MakeEvent(st.pending.value, stepDuration * st.counter)
          case Err(_) =>
          case Ok(event) =>
            FlushingAppendsSentinel(melody, i + 1, DecodeState(Some(melody[i]), 1, st.events + [event]), stepDuration);
        } else {
          FlushingAppendsSentinel(melody, i + 1, DecodeState(Some(melody[i]), st.counter, st.events), stepDuration);
        }
      } else {
        FlushingAppendsSentinel(melody, i + 1, DecodeState(st.pending, st.counter + 1, st.events), stepDuration);
      }
    }
  }

  /** The corrected decoder inverts run-length encoding with no token after the last span. */
  lemma DecodeFlushingSpans(spans: seq<Span>, stepDuration: Sixteenths)
    requires WellFormed(spans)
    ensures DecodeFlushing(SpanTokens(spans), stepDuration) == SpanEvents(spans, stepDuration)
  {
    FlushingAppendsSentinel(SpanTokens(spans), 0, DecodeState(None, 1, []), stepDuration);
    DecodeSpans(spans, "_", stepDuration);
  }

  /** The corrected decoder inverts the encoder on every quantized song. */
  lemma DecodeFlushingEncoded(song: seq<Event>, timeStep: TimeStep)
    requires AllQuantized(song, timeStep)
    ensures DecodeFlushing(SongTokens(song, timeStep), timeStep) == Ok(song)
  {
    SongSpanTokens(song, timeStep);
    SongSpanEvents(song, timeStep);
    DecodeFlushingSpans(SongSpans(song, timeStep), timeStep);
  }

  /** The input that shows the difference: a note of three steps and a rest of two encode
      to `60 _ _ r _`; the decoder as written gives the rest one step, the corrected one two. */
  lemma FinalStepLost()
    ensures SongTokens([Note(60, 3), Rest(2)], DefaultTimeStep) == ["60", "_", "_", "r", "_"]
    ensures Decode(["60", "_", "_", "r", "_"], DefaultTimeStep) != Ok([Note(60, 3), Rest(2)])
    ensures DecodeFlushing(["60", "_", "_", "r", "_"], DefaultTimeStep) == Ok([Note(60, 3), Rest(2)])
  {
    assert IntToString(60) == "60";
    var song := [Note(60, 3), Rest(2)];
    assert EventTokens(song[0], DefaultTimeStep) == ["60", "_", "_"];
    assert EventTokens(song[1], DefaultTimeStep) == ["r", "_"];
    assert song[1..] == [Rest(2)] && song[1..][1..] == [];
    DecodeExample();
    DecodeFlushingEncoded(song, DefaultTimeStep);
  }
}
