/** The symbolic token pipeline of preprocessing.py: scores (as lists of notes
    and rests) become time-step token strings, the strings are merged into one
    corpus with delimiter blocks, the corpus gives a sorted vocabulary, and the
    integer-mapped corpus is cut into training windows. */
module Preprocessing {
  import opened Wrappers
  import opened Strings
  import opened Numerals

  /** SEQUENCE_LENGTH: the training window, and the size of the delimiter block between songs. */
  const SequenceLength: nat := 64

  /** Durations are counted in sixteenths: a quarter length of 0.25 is 1. */
  type Sixteenths = nat

  /** ACCEPTABLE_DURATIONS (0.25, 0.5, 0.75, 1, 1.5, 2, 3 and 4 quarter lengths) in sixteenths. */
  const AcceptableDurations: seq<Sixteenths> := [1, 2, 3, 4, 6, 8, 12, 16]

  /** A time step of encode_song, in sixteenths; the default 0.25 quarter length is 1. */
  type TimeStep = n: Sixteenths | n > 0 witness 1

  const DefaultTimeStep: TimeStep := 1

  /** The score events the encoder handles: a note with its MIDI pitch, or a rest. */
  datatype Event = Note(pitch: int, duration: Sixteenths) | Rest(duration: Sixteenths)

  // ---------------------------------------------------------------------------
  // encode_song
  // ---------------------------------------------------------------------------

  /** `int(duration / time_step)`: durations and time steps are non-negative, so truncation is floor. */
  function StepCount(e: Event, timeStep: TimeStep): (k: nat)
    ensures k * timeStep <= e.duration < (k + 1) * timeStep
  {
    e.duration / timeStep
  }

  /** The onset token of an event: `str(pitch.midi)` for a note, `"r"` for a rest. */
  function Symbol(e: Event): (s: string)
    ensures IsWord(s) && s != "_"
    ensures s == "r" <==> e.Rest?
  {
    match e
    case Note(pitch, _) => IntToString(pitch)
    case Rest(_) => "r"
  }

  /** The tokens one event contributes: its symbol, then one `"_"` per further step. */
  function EventTokens(e: Event, timeStep: TimeStep): (ts: seq<string>)
    ensures |ts| == StepCount(e, timeStep)
    ensures |ts| > 0 ==> ts[0] == Symbol(e)
    ensures forall j :: 0 < j < |ts| ==> ts[j] == "_"
  {
    var k := StepCount(e, timeStep);
    if k == 0 then [] else [Symbol(e)] + Repeat("_", k - 1)
  }

  /** The tokens of a song: each event's tokens, in event order. */
  function SongTokens(song: seq<Event>, timeStep: TimeStep): (ts: seq<string>)
    ensures AllWords(ts)
    ensures ts != [] ==> ts[0] != "_"
    decreases |song|
  {
    if song == [] then [] else EventTokens(song[0], timeStep) + SongTokens(song[1..], timeStep)
  }

  lemma {:induction false} SongTokensSnoc(song: seq<Event>, e: Event, timeStep: TimeStep)
    ensures SongTokens(song + [e], timeStep) == SongTokens(song, timeStep) + EventTokens(e, timeStep)
    decreases |song|
  {
    if song == [] {
      assert song + [e] == [e];
      assert [e][1..] == [];
    } else {
      assert (song + [e])[0] == song[0];
      assert (song + [e])[1..] == song[1..] + [e];
      SongTokensSnoc(song[1..], e, timeStep);
    }
  }

  /** One more token of an event: its symbol first, then continuations. */
  lemma EventTokensExtend(event: Event, timeStep: TimeStep, step: nat)
    requires step < StepCount(event, timeStep)
    ensures EventTokens(event, timeStep)[..step + 1]
         == EventTokens(event, timeStep)[..step] + [if step == 0 then Symbol(event) else "_"]
  {
    assert EventTokens(event, timeStep)[..step + 1]
        == EventTokens(event, timeStep)[..step] + [EventTokens(event, timeStep)[step]];
  }

  /** The tokens of one more event extend the tokens of the song so far. */
  lemma SongPrefixExtend(song: seq<Event>, i: nat, timeStep: TimeStep)
    requires i < |song|
    ensures SongTokens(song[..i + 1], timeStep) == SongTokens(song[..i], timeStep) + EventTokens(song[i], timeStep)
  {
    assert song[..i + 1] == song[..i] + [song[i]];
    SongTokensSnoc(song[..i], song[i], timeStep);
  }

  /** encode_song: walks the events, appending each one's tokens, and joins them with spaces. */
  method EncodeSong(song: seq<Event>, timeStep: TimeStep) returns (encoded: string)
    ensures encoded == Join(SongTokens(song, timeStep))
    ensures Split(encoded) == SongTokens(song, timeStep)
  {
    var tokens: seq<string> := [];
    for i := 0 to |song|
      invariant tokens == SongTokens(song[..i], timeStep)
    {
      var event := song[i];
      var symbol := Symbol(event);
      var steps := event.duration / timeStep;
      ghost var before := tokens;
      for step := 0 to steps
        invariant tokens == before + EventTokens(event, timeStep)[..step]
      {
        EventTokensExtend(event, timeStep, step);
        if step == 0 {
          tokens := tokens + [symbol];
        } else {
          tokens := tokens + ["_"];
        }
      }
      assert EventTokens(event, timeStep)[..steps] == EventTokens(event, timeStep);
      SongPrefixExtend(song, i, timeStep);
    }
    assert song[..|song|] == song;
    SplitJoin(tokens);
    encoded := Join(tokens);
  }

  /** The number of time steps the events of a song span. */
  function TotalSteps(song: seq<Event>, timeStep: TimeStep): nat
    decreases |song|
  {
    if song == [] then 0 else StepCount(song[0], timeStep) + TotalSteps(song[1..], timeStep)
  }

  /** The number of events that last at least one time step. */
  function SoundingEvents(song: seq<Event>, timeStep: TimeStep): nat
    decreases |song|
  {
    if song == [] then 0
    else (if StepCount(song[0], timeStep) > 0 then 1 else 0) + SoundingEvents(song[1..], timeStep)
  }

  /** The number of tokens that are not the continuation `"_"`. */
  function Onsets(ts: seq<string>): nat
    decreases |ts|
  {
    if ts == [] then 0 else (if ts[0] != "_" then 1 else 0) + Onsets(ts[1..])
  }

  lemma {:induction false} OnsetsAppend(a: seq<string>, b: seq<string>)
    ensures Onsets(a + b) == Onsets(a) + Onsets(b)
    decreases |a|
  {
    if a == [] {
      assert a + b == b;
    } else {
      assert (a + b)[0] == a[0];
      assert (a + b)[1..] == a[1..] + b;
      OnsetsAppend(a[1..], b);
    }
  }

  lemma {:induction false} OnsetsOfContinuations(n: int)
    ensures Onsets(Repeat("_", n)) == 0
    decreases n
  {
    if n > 0 {
      assert Repeat("_", n)[1..] == Repeat("_", n - 1);
      OnsetsOfContinuations(n - 1);
    }
  }

  /** The encoding has exactly one token per time step of the song. */
  lemma {:induction false} EncodedLength(song: seq<Event>, timeStep: TimeStep)
    ensures |SongTokens(song, timeStep)| == TotalSteps(song, timeStep)
    decreases |song|
  {
    if song != [] {
      EncodedLength(song[1..], timeStep);
    }
  }

  /** Every event of at least one step, and only those, contributes one onset token. */
  lemma {:induction false} EncodedOnsets(song: seq<Event>, timeStep: TimeStep)
    ensures Onsets(SongTokens(song, timeStep)) == SoundingEvents(song, timeStep)
    decreases |song|
  {
    if song != [] {
      var ts := EventTokens(song[0], timeStep);
      OnsetsAppend(ts, SongTokens(song[1..], timeStep));
      EncodedOnsets(song[1..], timeStep);
      if ts != [] {
        assert ts == [ts[0]] + Repeat("_", |ts| - 1);
        OnsetsAppend([ts[0]], Repeat("_", |ts| - 1));
        OnsetsOfContinuations(|ts| - 1);
      }
    }
  }

  // ---------------------------------------------------------------------------
  // has_acceptable_duration
  // ---------------------------------------------------------------------------

  /** has_acceptable_duration: true exactly when every note and rest has an accepted duration;
      the scan returns false at the first event whose duration is not accepted. */
  method HasAcceptableDuration(song: seq<Event>, acceptable: seq<Sixteenths>) returns (ok: bool)
    ensures ok <==> forall i :: 0 <= i < |song| ==> song[i].duration in acceptable
  {
    for i := 0 to |song|
      invariant forall j :: 0 <= j < i ==> song[j].duration in acceptable
    {
      if song[i].duration !in acceptable {
        return false;
      }
    }
    return true;
  }

  // ---------------------------------------------------------------------------
  // create_single_song_database
  // ---------------------------------------------------------------------------

  /** The block written after every song: `"/ " * sequence_length`. */
  function Delimiter(sequenceLength: int): string {
    Times("/ ", sequenceLength)
  }

  /** The number of characters of all the songs together. */
  function TotalLength(songs: seq<string>): nat
    decreases |songs|
  {
    if songs == [] then 0 else TotalLength(songs[..|songs| - 1]) + |songs[|songs| - 1]|
  }

  /** The merged corpus: the fold of `song + " " + delimiter` over the songs. */
  function Database(songs: seq<string>, sequenceLength: int): string
    decreases |songs|
  {
    if songs == [] then ""
    else Database(songs[..|songs| - 1], sequenceLength) + songs[|songs| - 1] + " " + Delimiter(sequenceLength)
  }

  /** Each song adds itself, one space and a delimiter block, and the corpus ends with a block. */
  lemma {:induction false} DatabaseShape(songs: seq<string>, sequenceLength: int)
    ensures var db := Database(songs, sequenceLength);
      |db| == TotalLength(songs) + |songs| * (1 + |Delimiter(sequenceLength)|)
    ensures var db := Database(songs, sequenceLength); var d := Delimiter(sequenceLength);
      songs != [] ==> |d| <= |db| && db[|db| - |d|..] == d
    decreases |songs|
  {
    if songs != [] {
      var front := songs[..|songs| - 1];
      var c := 1 + |Delimiter(sequenceLength)|;
      DatabaseShape(front, sequenceLength);
      assert |songs| * c == |front| * c + c;
    }
  }

  /** The tokens of the merged corpus: each song's own tokens followed by `sequence_length` delimiters. */
  function DatabaseTokens(songs: seq<string>, sequenceLength: int): seq<string>
    decreases |songs|
  {
    if songs == [] then []
    else DatabaseTokens(songs[..|songs| - 1], sequenceLength) + Split(songs[|songs| - 1]) + Repeat("/", sequenceLength)
  }

  /** The delimiter block splits into exactly `sequence_length` `"/"` tokens and ends in a space. */
  lemma {:induction false} DelimiterTokens(n: int)
    ensures Split(Delimiter(n)) == Repeat("/", n)
    ensures Delimiter(n) == [] || IsSpace(Delimiter(n)[|Delimiter(n)| - 1])
    decreases n
  {
    if n > 0 {
      DelimiterTokens(n - 1);
      SplitAfterSpace(Delimiter(n - 1), "/ ");
      assert "/ " == "/" + [' '] + [];
      SplitSeparator("/", ' ', []);
      SplitWord("/");
      assert Repeat("/", n - 1) + ["/"] == Repeat("/", n);
    }
  }

  /** Splitting the merged corpus gives each song's tokens followed by its delimiter block. */
  lemma {:induction false} DatabaseSplit(songs: seq<string>, sequenceLength: int)
    ensures Split(Database(songs, sequenceLength)) == DatabaseTokens(songs, sequenceLength)
    ensures var db := Database(songs, sequenceLength); db == [] || IsSpace(db[|db| - 1])
    decreases |songs|
  {
    if songs != [] {
      var init, song := songs[..|songs| - 1], songs[|songs| - 1];
      var before := Database(init, sequenceLength);
      var delimiter := Delimiter(sequenceLength);
      DatabaseSplit(init, sequenceLength);
      DelimiterTokens(sequenceLength);
      SplitSeparator(before + song, ' ', delimiter);
      SplitAfterSpace(before, song);
    }
  }

  /** create_single_song_database without the file walk: appends every song, a space and a delimiter block. */
  method CreateSingleSongDatabase(songs: seq<string>, sequenceLength: int) returns (db: string)
    ensures db == Database(songs, sequenceLength)
    ensures Split(db) == DatabaseTokens(songs, sequenceLength)
  {
    var newSongDelimiter := Times("/ ", sequenceLength);
    db := "";
    for i := 0 to |songs|
      invariant db == Database(songs[..i], sequenceLength)
    {
      assert songs[..i + 1][..i] == songs[..i];
      db := db + (songs[i] + " " + newSongDelimiter);
    }
    assert songs[..|songs|] == songs;
    DatabaseSplit(songs, sequenceLength);
  }

  // ---------------------------------------------------------------------------
  // create_mapping
  // ---------------------------------------------------------------------------

  /** Distinct symbols have distinct indices. */
  predicate Injective(m: map<string, int>) {
    forall a, b :: a in m && b in m && a != b ==> m[a] != m[b]
  }

  /** A mapping as create_mapping writes it: injective, every index in [0, size). */
  predicate IsVocabulary(m: map<string, int>) {
    Injective(m) && forall t :: t in m ==> 0 <= m[t] < |m|
  }

  /** The indices `[0, n)`, as a set of `n` elements. */
  function Indices(n: nat): (r: set<int>)
    ensures forall d :: d in r ==> 0 <= d < n
    ensures |r| == n
  {
    if n == 0 then {} else Indices(n - 1) + {n - 1}
  }

  /** `Indices(n)` holds exactly the integers `0 <= d < n`. */
  lemma {:induction false} IndicesMembers(n: nat)
    ensures forall d :: d in Indices(n) <==> 0 <= d < n
  {
    if n > 0 {
      IndicesMembers(n - 1);
    }
  }

  /** An injective mapping has as many indices as symbols. */
  lemma {:induction false} InjectiveValues(m: map<string, int>)
    requires Injective(m)
    ensures |m.Values| == |m|
    decreases |m|
  {
    if m != map[] {
      var k :| k in m;
      var rest := m - {k};
      assert rest.Keys == m.Keys - {k};
      InjectiveValues(rest);
      forall d | d in m.Values ensures d in rest.Values + {m[k]} {
        var t :| t in m && m[t] == d;
        if t != k {
          assert rest[t] == d;
        }
      }
      assert m.Values == rest.Values + {m[k]};
      assert m[k] !in rest.Values;
    }
  }

  /** A set inside another is no larger. */
  lemma SubsetCardinality(a: set<int>, b: set<int>)
    requires a <= b
    ensures |a| <= |b|
  {
    assert b == a + (b - a);
  }

  /** A vocabulary uses every index in `[0, size)`: `size` distinct indices fit in a range of
      `size` only by filling it. */
  lemma VocabularyOnto(m: map<string, int>)
    requires IsVocabulary(m)
    ensures forall d :: 0 <= d < |m| ==> d in m.Values
  {
    InjectiveValues(m);
    var range := Indices(|m|);
    IndicesMembers(|m|);
    assert m.Values <= range;
    forall d | 0 <= d < |m| ensures d in m.Values {
      if d !in m.Values {
        assert d in range;
        SubsetCardinality(m.Values, range - {d});
        assert false;
      }
    }
  }

  lemma {:induction false} DistinctCardinality(w: seq<string>)
    requires forall i, j :: 0 <= i < |w| && 0 <= j < |w| && i != j ==> w[i] != w[j]
    ensures |set u | u in w| == |w|
    decreases |w|
  {
    if w != [] {
      DistinctCardinality(w[1..]);
      assert (set u | u in w) == {w[0]} + (set u | u in w[1..]);
      assert w[0] !in w[1..];
    }
  }

  /** The number of distinct symbols that sort before `t`. */
  function Rank(symbols: seq<string>, t: string): nat {
    |set u | u in symbols && Less(u, t)|
  }

  /** In a strictly sorted list, the strings below the i-th entry are exactly the first i entries. */
  lemma RankInSorted(v: seq<string>, i: nat)
    requires StrictlySorted(v) && i < |v|
    ensures Rank(v, v[i]) == i
  {
    SortedDistinct(v);
    forall u | u in v
      ensures Less(u, v[i]) <==> u in v[..i]
    {
      var j :| 0 <= j < |v| && v[j] == u;
      if j == i {
        LessIrreflexive(u);
      } else if j > i {
        LessAsymmetric(v[i], u);
      }
    }
    assert (set u | u in v && Less(u, v[i])) == set u | u in v[..i];
    SortedDistinct(v[..i]);
    DistinctCardinality(v[..i]);
  }

  lemma RankSameElements(a: seq<string>, b: seq<string>, t: string)
    requires forall x :: x in a <==> x in b
    ensures Rank(a, t) == Rank(b, t)
  {
    assert (set u | u in a && Less(u, t)) == set u | u in b && Less(u, t);
  }

  /** What the numbering loop leaves: entry j of the sorted vocabulary has index j, and nothing else is a key. */
  ghost predicate Numbered(vocabulary: seq<string>, mappings: map<string, int>) {
    && |mappings| == |vocabulary|
    && (forall t :: t in mappings <==> t in vocabulary)
    && (forall j :: 0 <= j < |vocabulary| ==> vocabulary[j] in mappings && mappings[vocabulary[j]] == j)
  }

  lemma NumberedPosition(vocabulary: seq<string>, mappings: map<string, int>, t: string)
    requires Numbered(vocabulary, mappings) && t in mappings
    ensures 0 <= mappings[t] < |vocabulary| && vocabulary[mappings[t]] == t
  {
    var j :| 0 <= j < |vocabulary| && vocabulary[j] == t;
  }

  lemma NumberedRank(symbols: seq<string>, vocabulary: seq<string>, mappings: map<string, int>)
    requires StrictlySorted(vocabulary) && Numbered(vocabulary, mappings)
    requires forall x :: x in vocabulary <==> x in symbols
    ensures forall t :: t in mappings ==> mappings[t] == Rank(symbols, t)
  {
    forall t | t in mappings
      ensures mappings[t] == Rank(symbols, t)
    {
      NumberedPosition(vocabulary, mappings, t);
      var i := mappings[t];
      RankInSorted(vocabulary, i);
      RankSameElements(symbols, vocabulary, t);
    }
  }

  lemma NumberedOrder(vocabulary: seq<string>, mappings: map<string, int>)
    requires StrictlySorted(vocabulary) && Numbered(vocabulary, mappings)
    ensures forall a, b :: a in mappings && b in mappings ==> (Less(a, b) <==> mappings[a] < mappings[b])
    ensures IsVocabulary(mappings)
  {
    forall a, b | a in mappings && b in mappings
      ensures Less(a, b) <==> mappings[a] < mappings[b]
    {
      NumberedPosition(vocabulary, mappings, a);
      NumberedPosition(vocabulary, mappings, b);
      var i, j := mappings[a], mappings[b];
      if i == j {
        LessIrreflexive(a);
      } else if j < i {
        LessAsymmetric(b, a);
      }
    }
    forall t | t in mappings
      ensures 0 <= mappings[t] < |mappings|
    {
      NumberedPosition(vocabulary, mappings, t);
    }
  }

  lemma NumberedOnto(vocabulary: seq<string>, mappings: map<string, int>)
    requires Numbered(vocabulary, mappings)
    ensures forall d :: d in mappings.Values <==> 0 <= d < |mappings|
  {
    forall d | 0 <= d < |mappings|
      ensures d in mappings.Values
    {
      assert vocabulary[d] in mappings;
    }
    forall d | d in mappings.Values
      ensures 0 <= d < |mappings|
    {
      var t :| t in mappings && mappings[t] == d;
      NumberedPosition(vocabulary, mappings, t);
    }
  }

  /** create_mapping without the JSON dump: the distinct tokens of the corpus, sorted,
      are numbered 0, 1, ... in that order. */
  method CreateMapping(songs: string) returns (mappings: map<string, int>)
    ensures forall t :: t in mappings <==> t in Split(songs)
    ensures forall t :: t in mappings ==> mappings[t] == Rank(Split(songs), t)
    ensures IsVocabulary(mappings)
    ensures forall d :: d in mappings.Values <==> 0 <= d < |mappings|
    ensures forall a, b :: a in mappings && b in mappings ==> (Less(a, b) <==> mappings[a] < mappings[b])
  {
    var symbols := Split(songs);
    var vocabulary := SortedSet(symbols);
    SortedDistinct(vocabulary);
    mappings := map[];
    for i := 0 to |vocabulary|
      invariant |mappings| == i
      invariant forall t :: t in mappings <==> t in vocabulary[..i]
      invariant forall j :: 0 <= j < i ==> vocabulary[j] in mappings && mappings[vocabulary[j]] == j
    {
      assert vocabulary[i] !in vocabulary[..i];
      mappings := mappings[vocabulary[i] := i];
      assert vocabulary[..i + 1] == vocabulary[..i] + [vocabulary[i]];
    }
    assert vocabulary[..|vocabulary|] == vocabulary;
    NumberedRank(symbols, vocabulary, mappings);
    NumberedOrder(vocabulary, mappings);
    NumberedOnto(vocabulary, mappings);
  }

  // ---------------------------------------------------------------------------
  // convert_song_to_int
  // ---------------------------------------------------------------------------

  /** `[mappings[s] for s in symbols]`: every symbol replaced by its index; the first
      symbol missing from the mapping raises `KeyError`. */
  function MapSymbols(mappings: map<string, int>, symbols: seq<string>): (r: Result<seq<int>, Error>)
    ensures r.Ok? <==> forall i :: 0 <= i < |symbols| ==> symbols[i] in mappings
    ensures r.Ok? ==> |r.value| == |symbols| && forall i :: 0 <= i < |symbols| ==> r.value[i] == mappings[symbols[i]]
    ensures r.Err? ==> exists k :: 0 <= k < |symbols| && symbols[k] !in mappings && r.error == KeyError(symbols[k])
                                   && forall j :: 0 <= j < k ==> symbols[j] in mappings
    decreases |symbols|
  {
    if symbols == [] then Ok([])
    else if symbols[0] !in mappings then Err(KeyError(symbols[0]))
    else
      match MapSymbols(mappings, symbols[1..])
      case Err(e) => Err(e)
      case Ok(rest) => Ok([mappings[symbols[0]]] + rest)
  }

  /** Looking up a concatenation looks up each part: the first part's error wins, then the second's. */
  lemma {:induction false} MapSymbolsAppend(mappings: map<string, int>, a: seq<string>, b: seq<string>)
    ensures MapSymbols(mappings, a + b)
         == match MapSymbols(mappings, a)
            case Err(e) => Err(e)
            case Ok(x) => (match MapSymbols(mappings, b)
                           case Err(e) => Err(e)
                           case Ok(y) => Ok(x + y))
    decreases |a|
  {
    if a == [] {
      assert a + b == b;
      if MapSymbols(mappings, b).Ok? {
        assert [] + MapSymbols(mappings, b).value == MapSymbols(mappings, b).value;
      }
    } else {
      assert (a + b)[0] == a[0] && (a + b)[1..] == a[1..] + b;
      MapSymbolsAppend(mappings, a[1..], b);
      if a[0] in mappings && MapSymbols(mappings, a[1..]).Ok? && MapSymbols(mappings, b).Ok? {
        var x, y := MapSymbols(mappings, a[1..]).value, MapSymbols(mappings, b).value;
        assert [mappings[a[0]]] + (x + y) == [mappings[a[0]]] + x + y;
      }
    }
  }

  /** n copies of a known symbol map to n copies of its index. */
  lemma {:induction false} MapRepeat(mappings: map<string, int>, symbol: string, n: nat)
    requires symbol in mappings
    ensures MapSymbols(mappings, Repeat(symbol, n)) == Ok(Repeat(mappings[symbol], n))
    decreases n
  {
    if n > 0 {
      assert Repeat(symbol, n)[0] == symbol && Repeat(symbol, n)[1..] == Repeat(symbol, n - 1);
      assert Repeat(mappings[symbol], n) == [mappings[symbol]] + Repeat(mappings[symbol], n - 1);
      MapRepeat(mappings, symbol, n - 1);
    } else {
      assert Repeat(symbol, n) == [];
      assert Repeat(mappings[symbol], n) == [];
    }
  }

  /** convert_song_to_int with the mapping passed in: splits the corpus and looks every token up. */
  method ConvertSongToInt(mappings: map<string, int>, songs: string) returns (r: Result<seq<int>, Error>)
    ensures r == MapSymbols(mappings, Split(songs))
  {
    var symbols := Split(songs);
    var intSongs: seq<int> := [];
    for i := 0 to |symbols|
      invariant |intSongs| == i
      invariant forall j :: 0 <= j < i ==> symbols[j] in mappings && intSongs[j] == mappings[symbols[j]]
    {
      if symbols[i] !in mappings {
        return Err(KeyError(symbols[i]));
      }
      intSongs := intSongs + [mappings[symbols[i]]];
    }
    var expected := MapSymbols(mappings, symbols);
    assert expected.Ok? && |expected.value| == |intSongs|;
    assert forall j :: 0 <= j < |intSongs| ==> expected.value[j] == intSongs[j];
    assert expected.value == intSongs;
    return Ok(intSongs);
  }

  // ---------------------------------------------------------------------------
  // generate_train_sequences
  // ---------------------------------------------------------------------------

  /** The training pairs: input windows and the integer target that follows each. */
  datatype TrainingData = TrainingData(inputs: seq<seq<int>>, targets: seq<int>)

  /** Window i of the stream is `stream[i:i+L]` and its target `stream[i+L]`, for every i
      below `len(stream) - L` (no pair at all when the stream is not longer than L). */
  predicate IsTrainingData(stream: seq<int>, sequenceLength: nat, data: TrainingData) {
    var count := if |stream| > sequenceLength then |stream| - sequenceLength else 0;
    && |data.inputs| == count && |data.targets| == count
    && forall i :: 0 <= i < count ==>
         data.inputs[i] == stream[i..i + sequenceLength] && data.targets[i] == stream[i + sequenceLength]
  }

  /** Each window followed by its target is a contiguous slice of `L + 1` stream entries. */
  lemma WindowThenTarget(stream: seq<int>, sequenceLength: nat, data: TrainingData)
    requires IsTrainingData(stream, sequenceLength, data)
    ensures forall i :: 0 <= i < |data.inputs| ==>
              data.inputs[i] + [data.targets[i]] == stream[i..i + sequenceLength + 1]
  {
    forall i | 0 <= i < |data.inputs|
      ensures data.inputs[i] + [data.targets[i]] == stream[i..i + sequenceLength + 1]
    {
      assert stream[i..i + sequenceLength + 1] == stream[i..i + sequenceLength] + [stream[i + sequenceLength]];
    }
  }

  /** generate_train_sequences without the file read and the one-hot expansion: the
      mapping error propagates, otherwise the pairs are the stream's windows and targets. */
  method GenerateTrainSequences(mappings: map<string, int>, songs: string, sequenceLength: nat)
    returns (r: Result<TrainingData, Error>)
    ensures r.Ok? <==> MapSymbols(mappings, Split(songs)).Ok?
    ensures r.Err? ==> r.error == MapSymbols(mappings, Split(songs)).error
    ensures r.Ok? ==> IsTrainingData(MapSymbols(mappings, Split(songs)).value, sequenceLength, r.value)
  {
    var converted := ConvertSongToInt(mappings, songs);
    if converted.Err? {
      return Err(converted.error);
    }
    var data := Windows(converted.value, sequenceLength);
    return Ok(data);
  }

  /** The loop of generate_train_sequences over the integer stream. */
  method Windows(intSongs: seq<int>, sequenceLength: nat) returns (data: TrainingData)
    ensures IsTrainingData(intSongs, sequenceLength, data)
  {
    var numSequences := |intSongs| - sequenceLength;
    var inputs: seq<seq<int>> := [];
    var targets: seq<int> := [];
    for i := 0 to if numSequences > 0 then numSequences else 0
      invariant |inputs| == i && |targets| == i
      invariant forall j :: 0 <= j < i ==>
        inputs[j] == intSongs[j..j + sequenceLength] && targets[j] == intSongs[j + sequenceLength]
    {
      inputs := inputs + [intSongs[i..i + sequenceLength]];
      targets := targets + [intSongs[i + sequenceLength]];
    }
    return TrainingData(inputs, targets);
  }
}
