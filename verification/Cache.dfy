/** The response cache: a directory of files named by the hash of the printed request, replayed verbatim. */
module Cache {
  import DecimalText
  import opened Lines
  import opened Listings
  import opened Sorting
  import opened StringOrder
  import opened Texts
  import opened Wrappers
  import opened Serialize
  import JsonReader

  // ----- Requests, records, files -----

  datatype Request = Request(provider: Text, scope: Text, model: Text, state: Json, questions: Json)

  datatype Usage = Usage(input: real, output: real)

  datatype Evaluation =
    Evaluation(answers: seq<Entry>, usage: Usage, provider: Text, model: Text, requestId: Option<Text>)

  /** What a JSON object holds under the keys the cache reads; `None` where the value has another shape. */
  datatype Parsed =
    Parsed(answers: Option<seq<Entry>>, usage: Option<Usage>, provider: Option<Text>, model: Option<Text>)

  /** The request id is not recorded. */
  function RecordOf(e: Evaluation): Parsed {
    Parsed(Some(e.answers), Some(e.usage), Some(e.provider), Some(e.model))
  }

  /** `json.dumps` and the encoding of its text, and `decode_json`: either may refuse. */
  datatype Codec = Codec(write: Evaluation -> Option<string>, read: string -> Option<Parsed>) {
    ghost predicate Lawful() {
      forall e :: this.write(e).Some? && this.read(this.write(e).value).Some?
                  ==> this.read(this.write(e).value).value == RecordOf(e)
    }
  }

  predicate IsDigest(key: string) {
    key != "" && '.' !in key
  }

  /** A hash without collisions; a digest of fixed length only comes close to it. */
  ghost predicate LawfulHash(hash: Text -> string) {
    && (forall a, b :: hash(a) == hash(b) ==> a == b)
    && forall a :: IsDigest(hash(a))
  }

  datatype Config = Config(enabled: bool, ttl: real, cap: int, hash: Text -> string, codec: Codec) {
    ghost predicate Lawful() {
      codec.Lawful() && LawfulHash(hash)
    }
  }

  datatype File = File(mtime: real, text: string)

  type Files = map<string, File>

  /** What the operating system refuses during one operation. */
  datatype Io = Io(write: Write, listable: bool, unstatable: set<string>, unreadable: set<string>,
                   undeletable: set<string>)

  datatype Write = Works | NotStaged | NotReplaced(cleaned: bool)

  // ----- Names -----

  function Body(r: Request): Json {
    Obj([Entry(Chars("provider"), Str(r.provider)), Entry(Chars("endpoint"), Str(r.scope)),
         Entry(Chars("model"), Str(r.model)), Entry(Chars("state"), r.state),
         Entry(Chars("questions"), r.questions)])
  }

  /** `_key`. */
  function Key(hash: Text -> string, r: Request): string {
    hash(Stringify(Body(r), None))
  }

  function LiveName(key: string): string {
    key + ".json"
  }

  function StagingName(key: string, random: string): string {
    "." + key + ".json." + random
  }

  /** `Path.suffix == ".json"`. */
  predicate IsEntry(name: string) {
    |name| > 5 && name[|name| - 5..] == ".json"
  }

  predicate IsStaging(name: string) {
    !IsEntry(name) && name != "" && name[0] == '.' && Contains(name, ".json.")
  }

  /** Two requests are the same to the cache. */
  predicate Same(a: Request, b: Request) {
    Normal(Body(a)) == Normal(Body(b))
  }

  /** Requests share a file exactly when their bodies have one normal form. */
  lemma KeysAgreeIff(hash: Text -> string, a: Request, b: Request)
    requires LawfulHash(hash)
    ensures LiveName(Key(hash, a)) == LiveName(Key(hash, b)) <==> Same(a, b)
  {
    JsonReader.PrintsAlikeIffSameNormalForm(Body(a), Body(b), None);
    var x, y := Key(hash, a), Key(hash, b);
    assert LiveName(x)[..|x|] == x && LiveName(y)[..|y|] == y;
  }

  lemma {:induction false} ContainsInside(before: string, pattern: string, after: string)
    ensures Contains(before + pattern + after, pattern)
  {
    var all := before + pattern + after;
    if before == "" {
      assert all[..|pattern|] == pattern;
    } else {
      assert all[1..] == before[1..] + pattern + after;
      ContainsInside(before[1..], pattern, after);
    }
  }

  /** What `mkstemp` appends. */
  const RANDOM_LENGTH := 8

  predicate IsRandom(random: string) {
    |random| == RANDOM_LENGTH && '.' !in random
  }

  /** The sweep takes every staging file and no entry. */
  lemma NamesAreToldApart(key: string, random: string)
    requires IsDigest(key) && IsRandom(random)
    ensures IsEntry(LiveName(key)) && IsStaging(StagingName(key, random)) && !IsEntry(StagingName(key, random))
  {
    var name := StagingName(key, random);
    assert name[|name| - 5..] == random[|random| - 5..];
    assert name[|name| - 5] == random[|random| - 5];
    assert ".json"[0] == '.';
    assert LiveName(key)[|key|..] == ".json";
    assert name == ("." + key) + ".json." + random;
    ContainsInside("." + key, ".json.", random);
  }

  // ----- Hashes and codecs that meet what is asked of them -----

  /** A text spelled out: two characters for each code point. */
  function Spelled(t: Text): (s: string)
    ensures |s| == 2 * |t| + 1
  {
    if t == [] then "x" else SpelledPoint(t[0]) + Spelled(t[1..])
  }

  function SpelledPoint(c: CodePoint): (s: string)
    ensures |s| == 2 && '.' !in s
  {
    [(0x100 + c as int / 0x400) as char, (0x100 + c as int % 0x400) as char]
  }

  lemma SpelledPointTells(a: CodePoint, b: CodePoint)
    requires SpelledPoint(a) == SpelledPoint(b)
    ensures a == b
  {
    assert SpelledPoint(a)[0] == SpelledPoint(b)[0] && SpelledPoint(a)[1] == SpelledPoint(b)[1];
  }

  lemma FrontTells(a: string, b: string, x: string, y: string)
    requires |a| == |b| && a + x == b + y
    ensures a == b && x == y
  {
    assert (a + x)[..|a|] == a && (b + y)[..|b|] == b;
    assert (a + x)[|a|..] == x && (b + y)[|b|..] == y;
  }

  lemma {:induction false} SpelledTells(a: Text, b: Text)
    requires Spelled(a) == Spelled(b)
    ensures a == b
    decreases |a|
  {
    assert 2 * |a| + 1 == 2 * |b| + 1;
    if a != [] {
      FrontTells(SpelledPoint(a[0]), SpelledPoint(b[0]), Spelled(a[1..]), Spelled(b[1..]));
      SpelledPointTells(a[0], b[0]);
      SpelledTells(a[1..], b[1..]);
      assert a == [a[0]] + a[1..] && b == [b[0]] + b[1..];
    }
  }

  lemma {:induction false} SpelledIsDigest(t: Text)
    ensures IsDigest(Spelled(t))
  {
    if t != [] {
      SpelledIsDigest(t[1..]);
    }
  }

  /** Some hash is lawful. */
  lemma SomeHashIsLawful()
    ensures LawfulHash(Spelled)
  {
    forall a, b | Spelled(a) == Spelled(b)
      ensures a == b
    {
      SpelledTells(a, b);
    }
    forall a
      ensures IsDigest(Spelled(a))
    {
      SpelledIsDigest(a);
    }
  }

  /** The number under which an evaluation is listed. */
  function IndexOf(known: seq<Evaluation>, e: Evaluation): (i: Option<nat>)
    ensures i.Some? ==> i.value < |known| && known[i.value] == e
    ensures i.None? ==> e !in known
  {
    if known == [] then None
    else if known[|known| - 1] == e then Some(|known| - 1)
    else IndexOf(known[..|known| - 1], e)
  }

  /** The last listed evaluation whose number reads `text`. */
  function Numbered(known: seq<Evaluation>, text: string): Option<Evaluation> {
    if known == [] then None
    else if DecimalText.StringOf(|known| - 1) == text then Some(known[|known| - 1])
    else Numbered(known[..|known| - 1], text)
  }

  lemma {:induction false} NumberedTells(known: seq<Evaluation>, i: nat)
    requires i < |known|
    ensures Numbered(known, DecimalText.StringOf(i)) == Some(known[i])
    decreases |known|
  {
    if i < |known| - 1 {
      if DecimalText.StringOf(|known| - 1) == DecimalText.StringOf(i) {
        DecimalText.StringOfInjective(|known| - 1, i);
      }
      NumberedTells(known[..|known| - 1], i);
    }
  }

  /** Any evaluations are written and read back by some lawful codec. */
  lemma SomeCodecIsLawful(known: seq<Evaluation>) returns (codec: Codec)
    ensures codec.Lawful()
    ensures forall e :: e in known ==> codec.write(e).Some? && codec.read(codec.write(e).value) == Some(RecordOf(e))
  {
    codec := Codec(
      e => var i := IndexOf(known, e); if i.None? then None else Some(DecimalText.StringOf(i.value)),
      text => var e := Numbered(known, text); if e.None? then None else Some(RecordOf(e.value)));
    forall e | codec.write(e).Some?
      ensures codec.read(codec.write(e).value) == Some(RecordOf(e))
    {
      NumberedTells(known, IndexOf(known, e).value);
    }
  }

  // ----- Which entries are evicted -----

  /** The time an entry is sorted by; an entry that cannot be examined counts as the oldest. */
  function Age(files: Files, io: Io, name: string): real {
    if name in files && name !in io.unstatable then files[name].mtime else 0.0
  }

  /** Not younger, ties broken by name. */
  predicate NotYounger(files: Files, io: Io, a: string, b: string) {
    var x, y := Age(files, io, a), Age(files, io, b);
    x < y || (x == y && AtMost(a, b))
  }

  function ByAge(files: Files, io: Io): (string, string) -> bool {
    (a, b) => NotYounger(files, io, a, b)
  }

  lemma ByAgeIsPreorder(files: Files, io: Io)
    ensures TotalPreorder(ByAge(files, io))
  {
    var atMost := ByAge(files, io);
    forall a, b
      ensures atMost(a, b) || atMost(b, a)
    {
      AtMostIsTotal(a, b);
    }
    forall a, b, c | atMost(a, b) && atMost(b, c)
      ensures atMost(a, c)
    {
      if Age(files, io, a) == Age(files, io, c) {
        AtMostIsTransitive(a, b, c);
      }
    }
  }

  function Live(files: Files): set<string> {
    set n | n in files && IsEntry(n)
  }

  function Staged(files: Files): set<string> {
    set n | n in files && IsStaging(n)
  }

  /** The entries before `name` in the order of eviction. */
  function Older(names: set<string>, files: Files, io: Io, name: string): set<string> {
    set n | n in names && n != name && NotYounger(files, io, n, name)
  }

  /** The entries that have to go for at most `cap` to stay: those with too few older ones. */
  function Doomed(names: set<string>, files: Files, cap: int, io: Io): set<string> {
    if cap <= 0 then {} else set n | n in names && |Older(names, files, io, n)| < |names| - cap
  }

  function Evicted(files: Files, cap: int, io: Io): Files {
    if !io.listable then files
    else files - (Staged(files) + Doomed(Live(files), files, cap, io) - io.undeletable)
  }

  /** `order` lists the entries from the oldest on. */
  ghost predicate Lists(order: seq<string>, names: set<string>, files: Files, io: Io) {
    Distinct(order) && Elements(order) == names && SortedBy(ByAge(files, io), order)
  }

  lemma RankIsPosition(order: seq<string>, names: set<string>, files: Files, io: Io, i: nat)
    requires Lists(order, names, files, io) && i < |order|
    ensures |Older(names, files, io, order[i])| == i
  {
    forall n | n in Elements(order[..i])
      ensures n in Older(names, files, io, order[i])
    {
      var j :| 0 <= j < i && order[..i][j] == n;
      assert order[j] == n && order[j] in Elements(order);
      assert ByAge(files, io)(order[j], order[i]);
    }
    forall n | n in Older(names, files, io, order[i])
      ensures n in Elements(order[..i])
    {
      assert n in Elements(order);
      var j := Position(order, n);
      if j > i {
        assert ByAge(files, io)(order[i], order[j]);
        AtMostIsTotal(order[i], order[j]);
      }
      assert order[..i][j] == n;
    }
    assert Older(names, files, io, order[i]) == Elements(order[..i]);
    DistinctCount(order[..i]);
  }

  /** The doomed are the first of the list. */
  lemma DoomedAreFirst(order: seq<string>, names: set<string>, files: Files, cap: int, io: Io)
    requires Lists(order, names, files, io) && 0 < cap <= |order|
    ensures |names| == |order|
    ensures Doomed(names, files, cap, io) == Elements(order[..|order| - cap])
  {
    DistinctCount(order);
    var first := order[..|order| - cap];
    forall n | n in Doomed(names, files, cap, io)
      ensures n in Elements(first)
    {
      var i := Position(order, n);
      RankIsPosition(order, names, files, io, i);
      assert first[i] == n;
    }
    forall n | n in Elements(first)
      ensures n in Doomed(names, files, cap, io)
    {
      var i := Position(first, n);
      assert order[i] == n && order[i] in Elements(order);
      RankIsPosition(order, names, files, io, i);
    }
  }

  lemma SortedLists(listed: seq<string>, names: set<string>, files: Files, io: Io)
    requires Distinct(listed) && Elements(listed) == names
    ensures Lists(Sort(listed, ByAge(files, io)), names, files, io) && |Sort(listed, ByAge(files, io))| == |listed|
  {
    ByAgeIsPreorder(files, io);
    SortSorts(listed, ByAge(files, io));
    PermutedIsDistinct(listed, Sort(listed, ByAge(files, io)));
  }

  /** The entries in the order of eviction. */
  lemma SomeOrder(names: set<string>, files: Files, io: Io) returns (order: seq<string>)
    ensures Lists(order, names, files, io) && |order| == |names|
  {
    var listed := SomeListing(names);
    SortedLists(listed, names, files, io);
    order := Sort(listed, ByAge(files, io));
    DistinctCount(order);
  }

  lemma DoomedCount(names: set<string>, files: Files, cap: int, io: Io)
    ensures Doomed(names, files, cap, io) <= names
    ensures |names - Doomed(names, files, cap, io)| == if 0 < cap < |names| then cap else |names|
  {
    var order := SomeOrder(names, files, io);
    if 0 < cap < |names| {
      DoomedAreFirst(order, names, files, cap, io);
      DistinctCount(order[..|order| - cap]);
    } else {
      assert Doomed(names, files, cap, io) == {};
    }
  }

  lemma DoomedAreOldest(names: set<string>, files: Files, cap: int, io: Io, gone: string, kept: string)
    requires gone in Doomed(names, files, cap, io) && kept in names - Doomed(names, files, cap, io)
    ensures NotYounger(files, io, gone, kept)
  {
    var order := SomeOrder(names, files, io);
    var i := Position(order, gone);
    var j := Position(order, kept);
    RankIsPosition(order, names, files, io, i);
    RankIsPosition(order, names, files, io, j);
    assert ByAge(files, io)(order[i], order[j]);
  }

  /** When everything can be deleted: exactly the excess goes, no survivor is older than an evicted entry, the
      staging files are gone, and nothing else is touched. */
  lemma EvictionKeepsTheYoungest(files: Files, cap: int, io: Io)
    requires io.listable && io.undeletable == {}
    ensures var left := Evicted(files, cap, io);
            && |Live(left)| == (if 0 < cap < |Live(files)| then cap else |Live(files)|)
            && (forall gone, kept :: gone in Live(files) - Live(left) && kept in Live(left) ==>
                                       NotYounger(files, io, gone, kept))
            && Staged(left) == {}
            && forall n :: n in files && !IsEntry(n) && !IsStaging(n) ==> n in left && left[n] == files[n]
  {
    var left := Evicted(files, cap, io);
    assert Live(left) == Live(files) - Doomed(Live(files), files, cap, io);
    DoomedCount(Live(files), files, cap, io);
    forall gone, kept | gone in Live(files) - Live(left) && kept in Live(left)
      ensures NotYounger(files, io, gone, kept)
    {
      DoomedAreOldest(Live(files), files, cap, io, gone, kept);
    }
  }

  // ----- Lookup and store -----

  predicate Stale(c: Config, files: Files, name: string, now: real, io: Io) {
    c.ttl > 0.0 && name in files && name !in io.unstatable && now - files[name].mtime > c.ttl
  }

  /** The evaluation a record replays, for a request that shares its file. */
  function Replay(parsed: Parsed, r: Request): Option<Evaluation> {
    if parsed.answers.None? || parsed.provider != Some(r.provider) then None
    else if parsed.usage.None? || parsed.usage.value.input < 0.0 || parsed.usage.value.output < 0.0 then None
    else
      Some(Evaluation(parsed.answers.value, parsed.usage.value, r.provider,
                      if parsed.model.Some? then parsed.model.value else r.model, None))
  }

  /** What a lookup answers. */
  function Found(c: Config, files: Files, r: Request, now: real, io: Io): Option<Evaluation> {
    var name := LiveName(Key(c.hash, r));
    if !c.enabled || Stale(c, files, name, now, io) || name !in files || name in io.unreadable then None
    else
      var parsed := c.codec.read(files[name].text);
      if parsed.None? then None else Replay(parsed.value, r)
  }

  /** A lookup deletes the entry it finds stale. */
  function AfterLookup(c: Config, files: Files, r: Request, now: real, io: Io): Files {
    var name := LiveName(Key(c.hash, r));
    if c.enabled && Stale(c, files, name, now, io) && name !in io.undeletable then files - {name} else files
  }

  function Replaced(files: Files, temporary: string, name: string): Files
    requires temporary in files
  {
    (files - {temporary})[name := files[temporary]]
  }

  function AfterStore(c: Config, files: Files, r: Request, e: Evaluation, now: real, random: string, io: Io): Files {
    var text := c.codec.write(e);
    if !c.enabled || text.None? then files
    else
      var name, temporary := LiveName(Key(c.hash, r)), StagingName(Key(c.hash, r), random);
      var staged := files[temporary := File(now, text.value)];
      match io.write
      case NotStaged => files
      case NotReplaced(cleaned) => if cleaned then staged - {temporary} else staged
      case Works => Evicted(Replaced(staged, temporary, name), c.cap, io)
  }

  class Directory {
    var files: Files

    constructor ()
      ensures files == map[]
    {
      files := map[];
    }

    method Unlink(name: string, io: Io)
      modifies this
      ensures files == old(files) - if name in io.undeletable then {} else {name}
    {
      if name !in io.undeletable {
        files := files - {name};
      }
    }

    /** `iterdir`, in any order. */
    method List() returns (entries: seq<string>)
      ensures Distinct(entries) && Elements(entries) == files.Keys
    {
      entries := [];
      var left := files.Keys;
      while left != {}
        invariant Distinct(entries) && Elements(entries) == files.Keys - left
        invariant left <= files.Keys
        decreases |left|
      {
        var n :| n in left;
        DistinctAppend(entries, n);
        entries, left := entries + [n], left - {n};
      }
    }

    /** `_evict`. */
    method Evict(cap: int, io: Io)
      modifies this
      ensures files == Evicted(old(files), cap, io)
    {
      if !io.listable {
        return;
      }
      var entries := List();
      var live := Sweep(entries, io);
      SweepThenEvict(old(files), files, cap, io);
      EvictOldest(live, cap, io);
    }

    /** The second half: nothing for a cap of zero or below, else the first of the sorted entries. */
    method EvictOldest(live: seq<string>, cap: int, io: Io)
      requires Distinct(live) && Elements(live) == Live(files)
      modifies this
      ensures files == old(files) - (Doomed(Live(old(files)), old(files), cap, io) - io.undeletable)
    {
      DistinctCount(live);
      if cap <= 0 {
        return;
      }
      var excess := |live| - cap;
      if excess <= 0 {
        return;
      }
      var order := Sort(live, ByAge(files, io));
      SortedLists(live, Live(files), files, io);
      DoomedAreFirst(order, Live(files), files, cap, io);
      DeleteFirst(order, excess, io);
    }

    /** The first loop: deletes the staging files and collects the entries. */
    method Sweep(entries: seq<string>, io: Io) returns (live: seq<string>)
      requires Distinct(entries) && Elements(entries) == files.Keys
      modifies this
      ensures files == old(files) - (Staged(old(files)) - io.undeletable)
      ensures Distinct(live) && Elements(live) == Live(old(files))
    {
      live := [];
      for i := 0 to |entries|
        invariant files == old(files) - (Elements(entries[..i]) * Staged(old(files)) - io.undeletable)
        invariant Distinct(live) && Elements(live) == Elements(entries[..i]) * Live(old(files))
      {
        var entry := entries[i];
        assert entries[..i + 1] == entries[..i] + [entry];
        ElementsConcat(entries[..i], [entry]);
        ElementsOne(entry);
        assert entry in Elements(entries);
        assert entry !in Elements(entries[..i]);
        if IsEntry(entry) {
          DistinctAppend(live, entry);
          live := live + [entry];
        } else if IsStaging(entry) {
          Unlink(entry, io);
        }
      }
      assert entries[..|entries|] == entries;
      assert Elements(entries) * Staged(old(files)) == Staged(old(files));
      assert Elements(entries) * Live(old(files)) == Live(old(files));
    }

    method DeleteFirst(order: seq<string>, count: nat, io: Io)
      requires count <= |order|
      modifies this
      ensures files == old(files) - (Elements(order[..count]) - io.undeletable)
    {
      for i := 0 to count
        invariant files == old(files) - (Elements(order[..i]) - io.undeletable)
      {
        assert order[..i + 1] == order[..i] + [order[i]];
        ElementsConcat(order[..i], [order[i]]);
        ElementsOne(order[i]);
        Unlink(order[i], io);
      }
    }

    /** `lookup`. */
    method Lookup(c: Config, r: Request, now: real, io: Io) returns (hit: Option<Evaluation>)
      modifies this
      ensures hit == Found(c, old(files), r, now, io) && files == AfterLookup(c, old(files), r, now, io)
    {
      if !c.enabled {
        return None;
      }
      var name := LiveName(Key(c.hash, r));
      if Stale(c, files, name, now, io) {
        Unlink(name, io);
        return None;
      }
      if name !in files || name in io.unreadable {
        return None;
      }
      var parsed := c.codec.read(files[name].text);
      if parsed.None? {
        return None;
      }
      hit := Replay(parsed.value, r);
    }

    /** `store`, over `write_private_atomic`. */
    method Store(c: Config, r: Request, e: Evaluation, now: real, random: string, io: Io)
      requires StagingName(Key(c.hash, r), random) !in files
      modifies this
      ensures files == AfterStore(c, old(files), r, e, now, random, io)
    {
      if !c.enabled {
        return;
      }
      var key := Key(c.hash, r);
      var text := c.codec.write(e);
      if text.None? || io.write.NotStaged? {
        return;
      }
      var temporary := StagingName(key, random);
      files := files[temporary := File(now, text.value)];
      if io.write.NotReplaced? {
        if io.write.cleaned {
          files := files - {temporary};
        }
        return;
      }
      files := Replaced(files, temporary, LiveName(key));
      Evict(c.cap, io);
    }
  }

  lemma SweepThenEvict(files: Files, swept: Files, cap: int, io: Io)
    requires io.listable && swept == files - (Staged(files) - io.undeletable)
    ensures Live(swept) == Live(files)
    ensures swept - (Doomed(Live(swept), swept, cap, io) - io.undeletable) == Evicted(files, cap, io)
  {
    SweepKeepsDoomed(files, Staged(files) - io.undeletable, cap, io);
    RemovedTwice(files, Staged(files), Doomed(Live(files), files, cap, io), io.undeletable);
  }

  lemma RemovedTwice<K, V>(m: map<K, V>, a: set<K>, b: set<K>, kept: set<K>)
    ensures m - (a - kept) - (b - kept) == m - (a + b - kept)
  {
  }

  /** Sweeping staging files does not change which entries go. */
  lemma SweepKeepsDoomed(files: Files, swept: set<string>, cap: int, io: Io)
    requires swept <= Staged(files)
    ensures Live(files - swept) == Live(files)
    ensures Doomed(Live(files), files - swept, cap, io) == Doomed(Live(files), files, cap, io)
  {
    var left := files - swept;
    assert Live(left) == Live(files);
    forall n | n in Live(files)
      ensures Older(Live(files), left, io, n) == Older(Live(files), files, io, n)
    {
    }
  }
}
