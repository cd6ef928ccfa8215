/**
 * The replicated log node (Kafka/Program.cs). Each key's log lives in
 * `lin-kv` as two entries: `latest_<key>` holds the last offset handed out
 * and `entry_<key>` holds the log rendered as `offset=message;` segments.
 * A key is owned by node `n<key mod N>`; other nodes forward `send` to the
 * owner. Consumer offsets live under `client_offset_<key>`.
 */
module Kafka {
  import opened Optional
  import opened Wire
  import opened Text
  import MsgType
  import opened Runtime
  import opened KVClients
  import opened StoreModel
  import opened Sets

  // ---------------------------------------------------------------- store keys

  const PrefixLatest := "latest_"
  const PrefixEntry := "entry_"
  const PrefixClientOffset := "client_offset_"

  function LatestKey(key: string): string { PrefixLatest + key }
  function EntryKey(key: string): string { PrefixEntry + key }
  function ClientKey(key: string): string { PrefixClientOffset + key }

  /**
   * The three families of store keys never collide, and each is one-to-one:
   * distinct log keys never share a store entry.
   */
  lemma StoreKeysDistinct(a: string, b: string)
    ensures LatestKey(a) != EntryKey(b) && LatestKey(a) != ClientKey(b) && EntryKey(a) != ClientKey(b)
    ensures LatestKey(a) == LatestKey(b) || EntryKey(a) == EntryKey(b) || ClientKey(a) == ClientKey(b) ==> a == b
  {
    assert LatestKey(a)[0] == 'l' && EntryKey(b)[0] == 'e' && ClientKey(b)[0] == 'c';
    assert EntryKey(a)[0] == 'e';
    if LatestKey(a) == LatestKey(b) {
      assert a == LatestKey(a)[|PrefixLatest|..] == LatestKey(b)[|PrefixLatest|..] == b;
    }
    if EntryKey(a) == EntryKey(b) {
      assert a == EntryKey(a)[|PrefixEntry|..] == EntryKey(b)[|PrefixEntry|..] == b;
    }
    if ClientKey(a) == ClientKey(b) {
      assert a == ClientKey(a)[|PrefixClientOffset|..] == ClientKey(b)[|PrefixClientOffset|..] == b;
    }
  }

  // ---------------------------------------------------------------- log codec

  datatype Entry = Entry(offset: int, message: int)

  /** One entry without its terminator: `offset=message`. */
  function EntryBody(e: Entry): string {
    IntToString(e.offset) + "=" + IntToString(e.message)
  }

  /** One entry as appended to the stored log: `offset=message;`. */
  function EntryText(e: Entry): string {
    EntryBody(e) + ";"
  }

  /** The stored form of a log: its entries' texts, in order. */
  function Render(es: seq<Entry>): string {
    if es == [] then "" else EntryText(es[0]) + Render(es[1..])
  }

  /** One segment `a=b...`: the first two `=`-separated parts, parsed; None when either is missing or not a number. */
  function ParseEntry(seg: string): (r: Option<Entry>)
    ensures r.Some? ==> '=' in seg
  {
    var parts := Split(seg, '=');
    if '=' !in seg then SplitNoDelimiter(seg, '='); None else
    if |parts| < 2 then None
    else
      match (ParseInt(parts[0]), ParseInt(parts[1]))
      case (Some(o), Some(m)) => Some(Entry(o, m))
      case _ => None
  }

  /** The segments in order, empty ones skipped; None when any non-empty one does not parse. */
  function ParseEntries(segs: seq<string>): (r: Option<seq<Entry>>)
    ensures r.Some? ==> |r.value| <= |segs|
    ensures r.None? <==> exists i :: 0 <= i < |segs| && segs[i] != "" && ParseEntry(segs[i]).None?
  {
    if segs == [] then Some([])
    else if segs[0] == "" then ParseEntries(segs[1..])
    else
      match (ParseEntry(segs[0]), ParseEntries(segs[1..]))
      case (Some(e), Some(es)) => Some([e] + es)
      case _ => None
  }

  /** ToEntries: the empty string is the empty log; otherwise the `;`-separated segments. */
  function ToEntries(v: string): (r: Option<seq<Entry>>)
    ensures r.None? <==> v != "" && exists seg :: seg in Split(v, ';') && seg != "" && ParseEntry(seg).None?
  {
    if v == "" then Some([]) else ParseEntries(Split(v, ';'))
  }

  function Bodies(es: seq<Entry>): seq<string> {
    if es == [] then [] else [EntryBody(es[0])] + Bodies(es[1..])
  }

  lemma EntryBodyPlain(e: Entry)
    ensures ';' !in EntryBody(e) && |EntryBody(e)| > 0
    ensures Split(EntryBody(e), '=') == [IntToString(e.offset), IntToString(e.message)]
  {
    IntToStringPlain(e.offset, ';');
    IntToStringPlain(e.message, ';');
    IntToStringPlain(e.offset, '=');
    IntToStringPlain(e.message, '=');
    SplitAtDelimiter(IntToString(e.offset), IntToString(e.message), '=');
    SplitNoDelimiter(IntToString(e.offset), '=');
    SplitNoDelimiter(IntToString(e.message), '=');
  }

  /** A rendered log splits into its entries' bodies and a final empty segment. */
  lemma {:induction false} SplitRender(es: seq<Entry>)
    ensures Split(Render(es), ';') == Bodies(es) + [""]
  {
    if es != [] {
      EntryBodyPlain(es[0]);
      assert Render(es) == EntryBody(es[0]) + [';'] + Render(es[1..]);
      SplitAtDelimiter(EntryBody(es[0]), Render(es[1..]), ';');
      SplitNoDelimiter(EntryBody(es[0]), ';');
      SplitRender(es[1..]);
    }
  }

  /** One entry's body parses back to the entry. */
  lemma ParseEntryBody(e: Entry)
    ensures ParseEntry(EntryBody(e)) == Some(e) && EntryBody(e) != ""
  {
    EntryBodyPlain(e);
    ParseIntToString(e.offset);
    ParseIntToString(e.message);
  }

  /** A non-empty segment that parses puts its entry in front of the rest. */
  lemma ParseEntriesCons(seg: string, rest: seq<string>, e: Entry)
    requires seg != "" && ParseEntry(seg) == Some(e)
    ensures ParseEntries([seg] + rest) == if ParseEntries(rest).Some? then Some([e] + ParseEntries(rest).value) else None
  {
    assert ([seg] + rest)[0] == seg;
    assert ([seg] + rest)[1..] == rest;
  }

  lemma {:induction false} ParseBodies(es: seq<Entry>)
    ensures ParseEntries(Bodies(es) + [""]) == Some(es)
  {
    if es == [] {
      assert Bodies(es) + [""] == [""];
    } else {
      var b := EntryBody(es[0]);
      ParseEntryBody(es[0]);
      assert Bodies(es) + [""] == [b] + (Bodies(es[1..]) + [""]);
      ParseBodies(es[1..]);
      ParseEntriesCons(b, Bodies(es[1..]) + [""], es[0]);
      assert [es[0]] + es[1..] == es;
    }
  }

  /** The stored form of a log reads back as that log. */
  lemma ToEntriesRender(es: seq<Entry>)
    ensures ToEntries(Render(es)) == Some(es)
  {
    if es != [] {
      EntryBodyPlain(es[0]);
      SplitRender(es);
      ParseBodies(es);
    }
  }

  /** Appending `offset=message;` to the stored form stores the log extended by that entry. */
  lemma {:induction false} RenderAppend(es: seq<Entry>, e: Entry)
    ensures Render(es + [e]) == Render(es) + EntryText(e)
  {
    if es == [] {
      assert Render([e]) == EntryText(e) + Render([]);
    } else {
      assert (es + [e])[1..] == es[1..] + [e];
      RenderAppend(es[1..], e);
    }
  }

  // ---------------------------------------------------------------- search and poll

  predicate StrictlyIncreasing(es: seq<Entry>) {
    forall i, j :: 0 <= i < j < |es| ==> es[i].offset < es[j].offset
  }

  /** The probe of a binary search over [lo, hi]: the midpoint, rounded down. */
  function Mid(lo: int, hi: int): (mid: int)
    requires lo <= hi
    ensures lo <= mid <= hi
  {
    lo + (hi - lo) / 2
  }

  /**
   * List<Entry>.BinarySearch with EntryComparer, on es[lo..hi] (hi
   * inclusive): the index of an entry with the offset, or the bitwise
   * complement -ip - 1 of the insertion point ip.
   */
  function SearchIn(es: seq<Entry>, offset: int, lo: int, hi: int): (r: int)
    requires 0 <= lo <= hi + 1 <= |es|
    ensures 0 <= r ==> lo <= r <= hi && es[r].offset == offset
    ensures r < 0 ==> lo <= -r - 1 <= hi + 1
    decreases hi - lo + 1
  {
    if lo > hi then -lo - 1
    else
      var mid := Mid(lo, hi);
      if es[mid].offset == offset then mid
      else if es[mid].offset < offset then SearchIn(es, offset, mid + 1, hi)
      else SearchIn(es, offset, lo, mid - 1)
  }

  /** `ip` splits the log: every offset before it is below `offset`, every one from it on is not. */
  predicate SplitsAt(es: seq<Entry>, offset: int, ip: int) {
    0 <= ip <= |es| && forall i :: 0 <= i < |es| ==> (es[i].offset < offset <==> i < ip)
  }

  /** The index a search result stands for: the hit itself, or the insertion point it encodes. */
  function InsertionPoint(r: int): int {
    if r >= 0 then r else -r - 1
  }

  /** In a strictly increasing log, every entry before `m` is below it and every entry after it above. */
  lemma IncreasingAround(es: seq<Entry>, m: int)
    requires StrictlyIncreasing(es) && 0 <= m < |es|
    ensures forall i :: 0 <= i < m ==> es[i].offset < es[m].offset
    ensures forall i :: m < i < |es| ==> es[m].offset < es[i].offset
  {
  }

  /** One probe of the search: a hit ends it, a miss continues on one half of the window. */
  lemma SearchInStep(es: seq<Entry>, offset: int, lo: int, hi: int)
    requires 0 <= lo <= hi < |es|
    ensures var mid := Mid(lo, hi);
      SearchIn(es, offset, lo, hi) ==
        if es[mid].offset == offset then mid
        else if es[mid].offset < offset then SearchIn(es, offset, mid + 1, hi)
        else SearchIn(es, offset, lo, mid - 1)
  {
  }

  /** A hit splits a strictly increasing log at the entry found. */
  lemma HitSplits(es: seq<Entry>, offset: int, mid: int)
    requires StrictlyIncreasing(es) && 0 <= mid < |es| && es[mid].offset == offset
    ensures SplitsAt(es, offset, mid)
  {
    IncreasingAround(es, mid);
  }

  /** A probe below the offset moves the known-below prefix past the probe. */
  lemma BelowProbe(es: seq<Entry>, offset: int, lo: int, mid: int)
    requires StrictlyIncreasing(es) && 0 <= lo <= mid < |es| && es[mid].offset < offset
    requires forall i :: 0 <= i < lo ==> es[i].offset < offset
    ensures forall i :: 0 <= i < mid + 1 ==> es[i].offset < offset
  {
    IncreasingAround(es, mid);
  }

  /** A probe above the offset moves the known-above suffix before the probe. */
  lemma AboveProbe(es: seq<Entry>, offset: int, hi: int, mid: int)
    requires StrictlyIncreasing(es) && 0 <= mid <= hi < |es| && es[mid].offset > offset
    requires forall i :: hi < i < |es| ==> es[i].offset > offset
    ensures forall i :: mid - 1 < i < |es| ==> es[i].offset > offset
  {
    IncreasingAround(es, mid);
  }

  /** A miss continues the search on one half: the window's result is that half's. */
  lemma MissContinues(es: seq<Entry>, offset: int, lo: int, hi: int, ip: int)
    requires 0 <= lo <= hi < |es| && es[Mid(lo, hi)].offset != offset
    requires es[Mid(lo, hi)].offset < offset ==> ip == InsertionPoint(SearchIn(es, offset, Mid(lo, hi) + 1, hi))
    requires es[Mid(lo, hi)].offset > offset ==> ip == InsertionPoint(SearchIn(es, offset, lo, Mid(lo, hi) - 1))
    ensures ip == InsertionPoint(SearchIn(es, offset, lo, hi))
  {
    SearchInStep(es, offset, lo, hi);
  }

  /**
   * On a strictly increasing log, when everything left of the window is
   * below the offset and everything right of it above, the search ends at
   * the first entry at or after the offset.
   */
  lemma {:induction false} SearchInLowerBound(es: seq<Entry>, offset: int, lo: int, hi: int)
    requires 0 <= lo <= hi + 1 <= |es|
    requires StrictlyIncreasing(es)
    requires forall i :: 0 <= i < lo ==> es[i].offset < offset
    requires forall i :: hi < i < |es| ==> es[i].offset > offset
    ensures SplitsAt(es, offset, InsertionPoint(SearchIn(es, offset, lo, hi)))
    decreases hi - lo + 1
  {
    if lo <= hi {
      var mid := Mid(lo, hi);
      if es[mid].offset < offset {
        BelowProbe(es, offset, lo, mid);
        SearchInLowerBound(es, offset, mid + 1, hi);
        MissContinues(es, offset, lo, hi, InsertionPoint(SearchIn(es, offset, mid + 1, hi)));
      } else if es[mid].offset > offset {
        AboveProbe(es, offset, hi, mid);
        SearchInLowerBound(es, offset, lo, mid - 1);
        MissContinues(es, offset, lo, hi, InsertionPoint(SearchIn(es, offset, lo, mid - 1)));
      } else {
        SearchInStep(es, offset, lo, hi);
        HitSplits(es, offset, mid);
      }
    }
  }

  /** Where a poll starts reading: the index found, or the insertion point (`ind = ~ind`). */
  function StartIndex(es: seq<Entry>, offset: int): (ind: int)
    ensures 0 <= ind <= |es|
  {
    var r := SearchIn(es, offset, 0, |es| - 1);
    if r < 0 then -r - 1 else r
  }

  /** The reference answer of a poll: the entries at or after the offset, in log order. */
  function AtOrAfter(es: seq<Entry>, offset: int): seq<Entry> {
    if es == [] then []
    else (if es[0].offset >= offset then [es[0]] else []) + AtOrAfter(es[1..], offset)
  }

  lemma {:induction false} SuffixIsAtOrAfter(es: seq<Entry>, ind: int, offset: int)
    requires 0 <= ind <= |es|
    requires forall i :: 0 <= i < ind ==> es[i].offset < offset
    requires forall i :: ind <= i < |es| ==> es[i].offset >= offset
    ensures es[ind..] == AtOrAfter(es, offset)
  {
    if es != [] {
      if ind == 0 {
        SuffixIsAtOrAfter(es[1..], 0, offset);
        assert es == [es[0]] + es[1..];
      } else {
        SuffixIsAtOrAfter(es[1..], ind - 1, offset);
        assert es[ind..] == es[1..][ind - 1..];
      }
    }
  }

  /** On a strictly increasing log the search-and-copy of a poll returns exactly AtOrAfter. */
  lemma PollSuffix(es: seq<Entry>, offset: int)
    requires StrictlyIncreasing(es)
    ensures es[StartIndex(es, offset)..] == AtOrAfter(es, offset)
  {
    SearchInLowerBound(es, offset, 0, |es| - 1);
    SuffixIsAtOrAfter(es, StartIndex(es, offset), offset);
  }

  /** The `[offset, message]` pairs of a poll reply. */
  function Pairs(es: seq<Entry>): (r: seq<seq<int>>)
    ensures |r| == |es|
  {
    seq(|es|, i requires 0 <= i < |es| => [es[i].offset, es[i].message])
  }

  /** The fate of the store request about `key`: the ones named in `fates`, otherwise answered. */
  function FateOf(fates: map<string, Fate>, key: string): Fate {
    if key in fates then fates[key] else Answered
  }

  /**
   * The text a poll reads for a log, as the store answers it: the stored
   * text, or "" for a missing key; None when the read times out.
   */
  function PolledText(store: map<string, string>, key: string, fate: Fate): Option<string> {
    if !fate.Answered? then None
    else if EntryKey(key) in store then Some(store[EntryKey(key)])
    else Some("")
  }

  /** The reply for one key of a poll; None when reading or parsing the log fails. */
  function PollKey(store: map<string, string>, key: string, offset: int, fate: Fate): (r: Option<seq<seq<int>>>)
    ensures r.None? <==> !fate.Answered? || (EntryKey(key) in store && ToEntries(store[EntryKey(key)]).None?)
    ensures fate.Answered? && EntryKey(key) !in store ==> r == Some([])
    ensures r.Some? ==> |r.value| <= |StoredLog(store, key)|
  {
    match PolledText(store, key, fate)
    case None => None
    case Some(v) =>
      match ToEntries(v)
      case None => None
      case Some(es) => Some(Pairs(es[StartIndex(es, offset)..]))
  }

  // ---------------------------------------------------------------- append

  /** The log a store holds for a key (empty when missing or unreadable). */
  function StoredLog(store: map<string, string>, key: string): seq<Entry> {
    if EntryKey(key) in store && ToEntries(store[EntryKey(key)]).Some? then ToEntries(store[EntryKey(key)]).value else []
  }

  /** The last offset handed out for a key, if the store holds a number there. */
  function StoredLatest(store: map<string, string>, key: string): Option<int> {
    if LatestKey(key) in store then ParseInt(store[LatestKey(key)]) else None
  }

  /**
   * The shape every append keeps: the entry text is the rendering of a
   * strictly increasing log (or missing while the log is empty), and the
   * latest offset is stored as a number at least every offset in the log.
   */
  predicate WellFormed(store: map<string, string>, key: string) {
    var log := StoredLog(store, key);
    var latest := StoredLatest(store, key);
    && (EntryKey(key) in store ==> store[EntryKey(key)] == Render(log))
    && (EntryKey(key) !in store ==> log == [])
    && (LatestKey(key) in store ==> latest.Some? && store[LatestKey(key)] == IntToString(latest.value))
    && StrictlyIncreasing(log)
    && (forall i :: 0 <= i < |log| ==> latest.Some? && log[i].offset <= latest.value)
  }

  /** The four store round trips of an append, in order. */
  datatype SendFates = SendFates(readLatest: Fate, writeLatest: Fate, readEntry: Fate, writeEntry: Fate)

  /**
   * The offset a send takes, as the store answers the read: one past the
   * stored latest, 0 when there is none; None when the read times out or the
   * stored text does not parse.
   */
  function NextOffset(store: map<string, string>, key: string, fate: Fate): Option<int> {
    if !fate.Answered? then None
    else if LatestKey(key) !in store then Some(0)
    else match ParseInt(store[LatestKey(key)])
      case Some(v) => Some(v + 1)
      case None => None
  }

  /**
   * The text a send appends to, as the store answers the read: the stored
   * text, or "" for a missing key; None when the read times out.
   */
  function AppendBase(store: map<string, string>, key: string, fate: Fate): Option<string> {
    if !fate.Answered? then None
    else if EntryKey(key) in store then Some(store[EntryKey(key)])
    else Some("")
  }

  /**
   * The outcome of an append: the store afterwards, the offset reported
   * (None: no reply), the requests sent and how each round trip ended.
   */
  datatype AppendResult = AppendResult(store: map<string, string>, offset: Option<int>, calls: seq<Message>, fates: seq<Fate>)

  function WriteLatestRequest(key: string, off: int): Message {
    LinKV.WriteRequest(LatestKey(key), off)
  }

  function WriteEntryRequest(key: string, base: string, off: int, value: int): Message {
    LinKV.WriteStringRequest(EntryKey(key), base + EntryText(Entry(off, value)))
  }

  /**
   * The owner's append under the key's lock: read the latest offset, store
   * the next one, read the log text, store it with `off=value;` appended,
   * and report the offset; the first failure ends it with no reply, keeping
   * whatever the store already applied.
   */
  function Append(store: map<string, string>, key: string, value: int, f: SendFates): (r: AppendResult)
    ensures |r.calls| == |r.fates| <= 4
    ensures r.offset.Some? <==>
      NextOffset(store, key, f.readLatest).Some? && f.writeLatest.Answered? && f.readEntry.Answered? && f.writeEntry.Answered?
    ensures r.offset.Some? ==> r.offset == NextOffset(store, key, f.readLatest) && r.fates == [Answered, Answered, Answered, Answered]
    ensures forall k :: k != LatestKey(key) && k != EntryKey(key) ==> (k in r.store <==> k in store) && (k in store ==> r.store[k] == store[k])
  {
    var c := Claim(store, key, f);
    if c.offset.None? then c
    else
      var t := AppendEntry(c.store, key, c.offset.value, value, f);
      AppendResult(t.store, t.offset, c.calls + t.calls, c.fates + t.fates)
  }

  /** The first half of an append: the next offset is read and stored as the latest; None when either call fails. */
  function Claim(store: map<string, string>, key: string, f: SendFates): (r: AppendResult)
    ensures |r.calls| == |r.fates| <= 2
    ensures r.offset.Some? <==> NextOffset(store, key, f.readLatest).Some? && f.writeLatest.Answered?
    ensures r.offset.Some? ==> r.offset == NextOffset(store, key, f.readLatest) && r.fates == [Answered, Answered]
    ensures forall k :: k != LatestKey(key) ==> (k in r.store <==> k in store) && (k in store ==> r.store[k] == store[k])
  {
    var rl := LinKV.ReadRequest(LatestKey(key));
    match NextOffset(store, key, f.readLatest)
    case None => AppendResult(store, None, [rl], [f.readLatest])
    case Some(off) =>
      var wl := WriteLatestRequest(key, off);
      var s1 := Stored(f.writeLatest, store, LatestKey(key), IntToString(off));
      AppendResult(s1, if f.writeLatest.Answered? then Some(off) else None, [rl, wl], [f.readLatest, f.writeLatest])
  }

  /** The second half of an append, once `off` is stored as the latest offset: the log text gains `off=value;`. */
  function AppendEntry(store: map<string, string>, key: string, off: int, value: int, f: SendFates): (r: AppendResult)
    ensures |r.calls| == |r.fates| <= 2
    ensures r.offset.Some? <==> f.readEntry.Answered? && f.writeEntry.Answered?
    ensures r.offset.Some? ==> r.offset == Some(off) && r.fates == [Answered, Answered]
    ensures forall k :: k != EntryKey(key) ==> (k in r.store <==> k in store) && (k in store ==> r.store[k] == store[k])
  {
    var re := LinKV.ReadRequest(EntryKey(key));
    match AppendBase(store, key, f.readEntry)
    case None => AppendResult(store, None, [re], [f.readEntry])
    case Some(v) =>
      var we := WriteEntryRequest(key, v, off, value);
      var s2 := Stored(f.writeEntry, store, EntryKey(key), v + EntryText(Entry(off, value)));
      AppendResult(s2, if f.writeEntry.Answered? then Some(off) else None, [re, we], [f.readEntry, f.writeEntry])
  }

  /** Reading the latest offset of a well-formed log: one past it, or 0 before the first send. */
  lemma NextOffsetOf(store: map<string, string>, key: string, fate: Fate)
    requires WellFormed(store, key)
    ensures NextOffset(store, key, fate) ==
      if !fate.Answered? then None
      else if StoredLatest(store, key).Some? then Some(StoredLatest(store, key).value + 1) else Some(0)
  {
    if StoredLatest(store, key).Some? {
      ParseIntToString(StoredLatest(store, key).value);
    }
  }

  /** Reading the text of a well-formed log: its rendering. */
  lemma AppendBaseOf(store: map<string, string>, key: string, fate: Fate)
    requires WellFormed(store, key)
    ensures AppendBase(store, key, fate) == if fate.Answered? then Some(Render(StoredLog(store, key))) else None
  {
  }

  /** A write of the latest offset, whatever its fate, keeps the log well formed when it does not go backwards. */
  lemma WriteLatestKeeps(store: map<string, string>, key: string, off: int, fate: Fate)
    requires WellFormed(store, key)
    requires forall i :: 0 <= i < |StoredLog(store, key)| ==> StoredLog(store, key)[i].offset < off
    ensures var s1 := Stored(fate, store, LatestKey(key), IntToString(off));
      && WellFormed(s1, key) && StoredLog(s1, key) == StoredLog(store, key)
      && (!fate.Lost? ==> StoredLatest(s1, key) == Some(off))
      && (fate.Lost? ==> s1 == store)
  {
    StoreKeysDistinct(key, key);
    ParseIntToString(off);
  }

  /** A write of the extended log text, whatever its fate, keeps the log well formed. */
  lemma WriteEntryKeeps(store: map<string, string>, key: string, off: int, value: int, fate: Fate)
    requires WellFormed(store, key) && StoredLatest(store, key) == Some(off)
    requires forall i :: 0 <= i < |StoredLog(store, key)| ==> StoredLog(store, key)[i].offset < off
    ensures var log := StoredLog(store, key);
      var s2 := Stored(fate, store, EntryKey(key), Render(log) + EntryText(Entry(off, value)));
      && WellFormed(s2, key) && StoredLatest(s2, key) == Some(off)
      && StoredLog(s2, key) == (if fate.Lost? then log else log + [Entry(off, value)])
      && (fate.Lost? ==> s2 == store)
  {
    var log := StoredLog(store, key);
    var log' := log + [Entry(off, value)];
    StoreKeysDistinct(key, key);
    RenderAppend(log, Entry(off, value));
    ToEntriesRender(log');
  }

  /** The offset the next send to a well-formed log takes. */
  function NextOf(store: map<string, string>, key: string): int {
    if StoredLatest(store, key).Some? then StoredLatest(store, key).value + 1 else 0
  }

  /** The store outside a key's two log entries is left alone. */
  ghost predicate OthersUnchanged(store: map<string, string>, store': map<string, string>, key: string) {
    forall k :: k != LatestKey(key) && k != EntryKey(key) ==>
      (k in store' <==> k in store) && (k in store ==> store'[k] == store[k])
  }

  /**
   * Whatever the fates of its two round trips, claiming an offset keeps the
   * log well formed and unchanged and touches only the latest entry; a
   * claimed offset is the next one, stored as the latest and above every
   * offset in the log.
   */
  lemma ClaimKeeps(store: map<string, string>, key: string, f: SendFates)
    requires WellFormed(store, key)
    ensures var c := Claim(store, key, f);
      var log := StoredLog(store, key);
      && WellFormed(c.store, key) && OthersUnchanged(store, c.store, key)
      && StoredLog(c.store, key) == log
      && (c.offset.Some? ==> c.offset.value == NextOf(store, key) && StoredLatest(c.store, key) == c.offset)
      && (forall i :: 0 <= i < |log| ==> log[i].offset < NextOf(store, key))
      && (f.readLatest.Answered? && f.writeLatest.Answered? ==> c.offset.Some?)
  {
    NextOffsetOf(store, key, f.readLatest);
    if f.readLatest.Answered? {
      WriteLatestKeeps(store, key, NextOf(store, key), f.writeLatest);
    }
  }

  /**
   * Whatever the fates of its two round trips, writing the entry at a
   * claimed offset keeps the log well formed and touches only the entry
   * text; the log stays or gains exactly the entry, and a reported offset
   * means it gained it.
   */
  lemma AppendEntryKeeps(store: map<string, string>, key: string, off: int, value: int, f: SendFates)
    requires WellFormed(store, key) && StoredLatest(store, key) == Some(off)
    requires forall i :: 0 <= i < |StoredLog(store, key)| ==> StoredLog(store, key)[i].offset < off
    ensures var t := AppendEntry(store, key, off, value, f);
      var log := StoredLog(store, key);
      && WellFormed(t.store, key) && OthersUnchanged(store, t.store, key) && StoredLatest(t.store, key) == Some(off)
      && (StoredLog(t.store, key) == log || StoredLog(t.store, key) == log + [Entry(off, value)])
      && (t.offset.Some? ==> t.offset == Some(off) && StoredLog(t.store, key) == log + [Entry(off, value)])
      && (f.readEntry.Answered? && f.writeEntry.Answered? ==> t.offset.Some?)
  {
    AppendBaseOf(store, key, f.readEntry);
    if f.readEntry.Answered? {
      WriteEntryKeeps(store, key, off, value, f.writeEntry);
    }
  }

  /**
   * Whatever the fates of its four round trips, an append keeps the log
   * well formed and touches only its two entries; the log either stays as
   * it was or gains exactly the new entry, whose offset exceeds every
   * earlier one; a reported offset always means the entry is in the log.
   */
  lemma AppendKeepsWellFormed(store: map<string, string>, key: string, value: int, f: SendFates)
    requires WellFormed(store, key)
    ensures var r := Append(store, key, value, f);
      var log := StoredLog(store, key);
      var e := Entry(NextOf(store, key), value);
      && WellFormed(r.store, key)
      && OthersUnchanged(store, r.store, key)
      && (StoredLog(r.store, key) == log || StoredLog(r.store, key) == log + [e])
      && (forall i :: 0 <= i < |log| ==> log[i].offset < e.offset)
      && (r.offset.Some? ==> r.offset.value == e.offset && StoredLog(r.store, key) == log + [e])
  {
    var c := Claim(store, key, f);
    ClaimKeeps(store, key, f);
    if c.offset.Some? {
      AppendEntryKeeps(c.store, key, c.offset.value, value, f);
    }
  }

  /** When every round trip is answered, the send is acknowledged with the next offset, now the latest. */
  lemma AppendAnswered(store: map<string, string>, key: string, value: int)
    requires WellFormed(store, key)
    ensures var r := Append(store, key, value, SendFates(Answered, Answered, Answered, Answered));
      && r.offset == Some(NextOf(store, key)) && StoredLatest(r.store, key) == r.offset
      && StoredLog(r.store, key) == StoredLog(store, key) + [Entry(NextOf(store, key), value)]
  {
    var f := SendFates(Answered, Answered, Answered, Answered);
    var c := Claim(store, key, f);
    ClaimKeeps(store, key, f);
    AppendEntryKeeps(c.store, key, c.offset.value, value, f);
  }

  /** A poll of a well-formed log answers exactly the entries at or after the offset, in order. */
  lemma PollWellFormed(store: map<string, string>, key: string, offset: int)
    requires WellFormed(store, key)
    ensures PollKey(store, key, offset, Answered) == Some(Pairs(AtOrAfter(StoredLog(store, key), offset)))
  {
    var log := StoredLog(store, key);
    ToEntriesRender(log);
    assert PolledText(store, key, Answered) == Some(Render(log));
    PollSuffix(log, offset);
  }

  /** A message acknowledged at offset `off` is what a poll from `off` returns first, and alone. */
  lemma {:induction false} SendThenPoll(store: map<string, string>, key: string, value: int)
    requires WellFormed(store, key)
    ensures var r := Append(store, key, value, SendFates(Answered, Answered, Answered, Answered));
      r.offset.Some? && PollKey(r.store, key, r.offset.value, Answered) == Some([[r.offset.value, value]])
  {
    var r := Append(store, key, value, SendFates(Answered, Answered, Answered, Answered));
    var log := StoredLog(store, key);
    var e := Entry(NextOf(store, key), value);
    AppendAnswered(store, key, value);
    AppendKeepsWellFormed(store, key, value, SendFates(Answered, Answered, Answered, Answered));
    PollWellFormed(r.store, key, e.offset);
    AtOrAfterLast(log, e);
    assert Pairs([e]) == [[e.offset, e.message]];
  }

  /** When every earlier offset is below the new entry's, polling from it yields the entry alone. */
  lemma {:induction false} AtOrAfterLast(log: seq<Entry>, e: Entry)
    requires forall i :: 0 <= i < |log| ==> log[i].offset < e.offset
    ensures AtOrAfter(log + [e], e.offset) == [e]
  {
    if log == [] {
      assert AtOrAfter([e], e.offset) == [e] + AtOrAfter([], e.offset);
    } else {
      assert (log + [e])[1..] == log[1..] + [e];
      AtOrAfterLast(log[1..], e);
    }
  }

  /** Offsets 0, 1, 2, ... with the latest being the last of them. */
  predicate Dense(store: map<string, string>, key: string) {
    var log := StoredLog(store, key);
    && (forall i :: 0 <= i < |log| ==> log[i].offset == i)
    && (if log == [] then StoredLatest(store, key).None? else StoredLatest(store, key) == Some(|log| - 1))
  }

  /** While no round trip fails, offsets are handed out consecutively from 0. */
  lemma DenseAppend(store: map<string, string>, key: string, value: int)
    requires WellFormed(store, key) && Dense(store, key)
    ensures var r := Append(store, key, value, SendFates(Answered, Answered, Answered, Answered));
      r.offset == Some(|StoredLog(store, key)|) && Dense(r.store, key)
  {
    var r := Append(store, key, value, SendFates(Answered, Answered, Answered, Answered));
    var log := StoredLog(store, key);
    AppendAnswered(store, key, value);
    assert NextOf(store, key) == |log|;
    var log' := StoredLog(r.store, key);
    forall i | 0 <= i < |log'| ensures log'[i].offset == i {
      if i < |log| { assert log'[i] == log[i]; }
    }
  }

  // ---------------------------------------------------------------- consumer offsets

  /**
   * ReadClientCommitOffset as the store answers it: Some(Some(v)) when the
   * committed text parses as v, Some(None) when nothing is committed, None
   * when the read times out or the text does not parse.
   */
  function CommittedOffset(store: map<string, string>, key: string, fate: Fate): Option<Option<int>> {
    if !fate.Answered? then None
    else if ClientKey(key) !in store then Some(None)
    else match ParseInt(store[ClientKey(key)])
      case Some(v) => Some(Some(v))
      case None => None
  }

  /** The reply map of `list_committed_offsets` over `keys` in order; None when any read throws. */
  function ListOffsets(store: map<string, string>, keys: seq<string>, fates: map<string, Fate>): (r: Option<map<string, int>>)
    ensures r.Some? ==> forall k :: k in r.value ==> k in keys && ClientKey(k) in store && ParseInt(store[ClientKey(k)]) == Some(r.value[k])
    ensures r.Some? ==> forall i :: 0 <= i < |keys| ==> FateOf(fates, keys[i]).Answered?
  {
    if keys == [] then Some(map[])
    else
      var k := keys[|keys| - 1];
      match (ListOffsets(store, keys[..|keys| - 1], fates), CommittedOffset(store, k, FateOf(fates, k)))
      case (Some(res), Some(None)) => Some(res)
      case (Some(res), Some(Some(v))) => Some(res[k := v])
      case _ => None
  }

  /** How many reads a list makes: all of them, or up to the first that throws. */
  function ListCalls(store: map<string, string>, keys: seq<string>, fates: map<string, Fate>): (n: nat)
    ensures n <= |keys|
  {
    if keys == [] then 0
    else if ListOffsets(store, keys[..|keys| - 1], fates).None? then ListCalls(store, keys[..|keys| - 1], fates)
    else |keys|
  }

  datatype CommitResult = CommitResult(store: map<string, string>, ok: bool)

  function CommitRequest(p: (string, int)): Message {
    LinKV.WriteRequest(ClientKey(p.0), p.1)
  }

  /** Writing the offsets in the order `pairs`, stopping at the first write that fails. */
  function CommitSeq(store: map<string, string>, pairs: seq<(string, int)>, fates: map<string, Fate>): (r: CommitResult)
    ensures r.ok <==> forall i :: 0 <= i < |pairs| ==> FateOf(fates, pairs[i].0).Answered?
  {
    if pairs == [] then CommitResult(store, true)
    else
      var r := CommitSeq(store, pairs[..|pairs| - 1], fates);
      var p := pairs[|pairs| - 1];
      var fate := FateOf(fates, p.0);
      if !r.ok then r
      else CommitResult(Stored(fate, r.store, ClientKey(p.0), IntToString(p.1)), fate.Answered?)
  }

  /** A series of commits leaves every store entry other than the committed keys' untouched, whatever fails. */
  lemma {:induction false} CommitKeepsOthers(store: map<string, string>, pairs: seq<(string, int)>, fates: map<string, Fate>, k: string)
    requires forall i :: 0 <= i < |pairs| ==> ClientKey(pairs[i].0) != k
    ensures k in CommitSeq(store, pairs, fates).store <==> k in store
    ensures k in store ==> CommitSeq(store, pairs, fates).store[k] == store[k]
    decreases |pairs|
  {
    if pairs != [] {
      var front := pairs[..|pairs| - 1];
      assert forall i :: 0 <= i < |front| ==> front[i] == pairs[i];
      CommitKeepsOthers(store, front, fates, k);
    }
  }

  /** Every committed offset in the store is a number. */
  ghost predicate CommitsReadable(store: map<string, string>) {
    forall k :: ClientKey(k) in store ==> ParseInt(store[ClientKey(k)]).Some?
  }

  predicate DistinctKeys(pairs: seq<(string, int)>) {
    forall i, j :: 0 <= i < j < |pairs| ==> pairs[i].0 != pairs[j].0
  }

  /** The store once every offset of `pairs` is written, in order. */
  function Written(store: map<string, string>, pairs: seq<(string, int)>): map<string, string> {
    if pairs == [] then store
    else Written(store, pairs[..|pairs| - 1])[ClientKey(pairs[|pairs| - 1].0) := IntToString(pairs[|pairs| - 1].1)]
  }

  /** With every write answered, the commit succeeds and the store holds every offset written. */
  lemma {:induction false} CommitAnswered(store: map<string, string>, pairs: seq<(string, int)>)
    ensures CommitSeq(store, pairs, map[]) == CommitResult(Written(store, pairs), true)
  {
    if pairs != [] {
      var p := pairs[|pairs| - 1];
      CommitAnswered(store, pairs[..|pairs| - 1]);
    }
  }

  /**
   * Writing distinct keys stores each offset readably under its key and
   * leaves every other store entry alone.
   */
  lemma {:induction false} WrittenHolds(store: map<string, string>, pairs: seq<(string, int)>)
    requires DistinctKeys(pairs) && CommitsReadable(store)
    ensures var st := Written(store, pairs);
      && CommitsReadable(st)
      && (forall i :: 0 <= i < |pairs| ==> ClientKey(pairs[i].0) in st && ParseInt(st[ClientKey(pairs[i].0)]) == Some(pairs[i].1))
      && (forall s :: (forall i :: 0 <= i < |pairs| ==> s != ClientKey(pairs[i].0)) ==>
            (s in st <==> s in store) && (s in store ==> st[s] == store[s]))
  {
    if pairs != [] {
      var init := pairs[..|pairs| - 1];
      var p := pairs[|pairs| - 1];
      WrittenHolds(store, init);
      var st := Written(store, pairs);
      ParseIntToString(p.1);
      forall i | 0 <= i < |pairs|
        ensures ClientKey(pairs[i].0) in st && ParseInt(st[ClientKey(pairs[i].0)]) == Some(pairs[i].1)
      {
        if i < |init| {
          assert pairs[i] == init[i];
          StoreKeysDistinct(init[i].0, p.0);
        }
      }
      forall k | ClientKey(k) in st
        ensures ParseInt(st[ClientKey(k)]).Some?
      {
        StoreKeysDistinct(k, p.0);
      }
      forall s | (forall i :: 0 <= i < |pairs| ==> s != ClientKey(pairs[i].0))
        ensures (s in st <==> s in store) && (s in store ==> st[s] == store[s])
      {
        assert s != ClientKey(pairs[|pairs| - 1].0);
        forall i | 0 <= i < |init| ensures s != ClientKey(init[i].0) {
          assert init[i] == pairs[i];
        }
      }
    }
  }

  /** Against a store of readable commits, a list with every read answered reports exactly what is stored. */
  lemma {:induction false} ListAnswered(store: map<string, string>, keys: seq<string>)
    requires CommitsReadable(store)
    ensures var r := ListOffsets(store, keys, map[]);
      && r.Some?
      && (forall k :: k in r.value <==> k in keys && ClientKey(k) in store)
      && (forall k :: k in r.value ==> Some(r.value[k]) == ParseInt(store[ClientKey(k)]))
  {
    if keys != [] {
      var k := keys[|keys| - 1];
      ListAnswered(store, keys[..|keys| - 1]);
      assert keys == keys[..|keys| - 1] + [k];
    }
  }

  /**
   * Offsets committed (every write answered) are what a later list reports
   * for those keys, whatever order the commit wrote them in.
   */
  lemma CommitThenList(store: map<string, string>, pairs: seq<(string, int)>, keys: seq<string>)
    requires DistinctKeys(pairs) && CommitsReadable(store)
    ensures var c := CommitSeq(store, pairs, map[]);
      var r := ListOffsets(c.store, keys, map[]);
      && c.ok && r.Some?
      && forall i :: 0 <= i < |pairs| && pairs[i].0 in keys ==> pairs[i].0 in r.value && r.value[pairs[i].0] == pairs[i].1
  {
    CommitAnswered(store, pairs);
    WrittenHolds(store, pairs);
    ListAnswered(Written(store, pairs), keys);
  }

  // ---------------------------------------------------------------- ownership

  /** C#'s `%` on integers: the remainder takes the sign of the dividend. */
  function TruncRem(a: int, n: int): (r: int)
    requires n > 0
    ensures -n < r < n && (a >= 0 ==> r == a % n)
  {
    if a >= 0 then a % n else -((-a) % n)
  }

  /** For a non-negative dividend the Euclidean remainder does not exceed it. */
  lemma ModAtMost(x: int, n: int)
    requires x >= 0 && n > 0
    ensures 0 <= x % n <= x
  {
    var q := x / n;
    assert x == n * q + x % n;
    assert q >= 0;
  }

  /** The remainder is no larger in magnitude than the dividend. */
  lemma RemWithinDividend(a: int, n: int)
    requires n > 0
    ensures a >= 0 ==> 0 <= TruncRem(a, n) <= a
    ensures a < 0 ==> a <= TruncRem(a, n) <= 0
  {
    ModAtMost(if a >= 0 then a else -a, n);
  }

  datatype Placement = Owned | Elsewhere(rem: int)

  /**
   * Where `send` for `key` is handled, as node `nodeId` of a cluster of `n`:
   * here when `key mod n` is this node's number, otherwise at node
   * `n<key mod n>`. None when the key or this node's number is not a 32-bit
   * integer, the cluster is empty, or the node id is empty.
   */
  function PlacementOf(key: string, nodeId: string, n: nat): (r: Option<Placement>)
    ensures r.Some? <==> ParseInt32(key).Some? && n > 0 && |nodeId| > 0 && ParseInt32(nodeId[1..]).Some?
    ensures r == Some(Owned) ==> TruncRem(ParseInt32(key).value, n) == ParseInt32(nodeId[1..]).value
    ensures r.Some? && r.value.Elsewhere? ==>
      r.value.rem == TruncRem(ParseInt32(key).value, n) != ParseInt32(nodeId[1..]).value && -(n as int) < r.value.rem < n
  {
    match ParseInt32(key)
    case None => None
    case Some(k) =>
      if n == 0 || |nodeId| == 0 then None
      else
        match ParseInt32(nodeId[1..])
        case None => None
        case Some(me) => var rem := TruncRem(k, n); Some(if rem == me then Owned else Elsewhere(rem))
  }

  function NodeName(j: int): string {
    "n" + IntToString(j)
  }

  /** A node named `n<j>` reads its own number back. */
  lemma NodeNumber(j: int)
    requires -0x8000_0000 <= j < 0x8000_0000
    ensures |NodeName(j)| > 0 && ParseInt32(NodeName(j)[1..]) == Some(j)
  {
    assert NodeName(j)[1..] == IntToString(j);
    ParseIntToString(j);
  }

  /**
   * For a 32-bit key in decimal, on node `n<j>` of a non-empty cluster, the
   * placement is defined: here exactly when the truncated remainder is j,
   * otherwise at that remainder.
   */
  lemma PlacementOfDecimal(k: int, j: int, n: nat)
    requires -0x8000_0000 <= k < 0x8000_0000 && -0x8000_0000 <= j < 0x8000_0000 && n > 0
    ensures PlacementOf(IntToString(k), NodeName(j), n) ==
      Some(if TruncRem(k, n) == j then Owned else Elsewhere(TruncRem(k, n)))
  {
    ParseIntToString(k);
    NodeNumber(j);
  }

  /** A forwarded `send` goes to the node that handles the key itself. */
  lemma ForwardReachesOwner(key: string, self: string, n: nat)
    requires PlacementOf(key, self, n).Some? && PlacementOf(key, self, n).value.Elsewhere?
    ensures PlacementOf(key, NodeName(PlacementOf(key, self, n).value.rem), n) == Some(Owned)
  {
    var k := ParseInt32(key).value;
    var rem := TruncRem(k, n);
    RemWithinDividend(k, n);
    NodeNumber(rem);
  }

  /** Among nodes n0 .. n<n-1>, a non-negative key is handled by exactly one: n<key mod n>. */
  lemma OwnerUnique(key: string, n: nat, j: int)
    requires ParseInt32(key).Some? && ParseInt32(key).value >= 0
    requires 0 <= j < n && j < 0x8000_0000
    ensures PlacementOf(key, NodeName(j), n) == Some(Owned) <==> j == ParseInt32(key).value % n
  {
    NodeNumber(j);
  }

  /**
   * A negative key that is not a multiple of the cluster size is handled by
   * no node with a non-negative number: it is forwarded to `n-<r>`.
   */
  lemma NegativeKeyUnowned(key: string, n: nat, j: int)
    requires ParseInt32(key).Some? && ParseInt32(key).value < 0 && n > 0
    requires TruncRem(ParseInt32(key).value, n) != 0
    requires 0 <= j < 0x8000_0000
    ensures PlacementOf(key, NodeName(j), n).Some? && PlacementOf(key, NodeName(j), n).value.Elsewhere?
    ensures PlacementOf(key, NodeName(j), n).value.rem < 0
  {
    NodeNumber(j);
  }

  // ---------------------------------------------------------------- the node

  function PollRequests(keys: seq<string>): (r: seq<Message>)
    ensures |r| == |keys|
  {
    seq(|keys|, i requires 0 <= i < |keys| => LinKV.ReadRequest(EntryKey(keys[i])))
  }

  function ListRequests(keys: seq<string>): (r: seq<Message>)
    ensures |r| == |keys|
  {
    seq(|keys|, i requires 0 <= i < |keys| => LinKV.ReadRequest(ClientKey(keys[i])))
  }

  function CommitRequests(pairs: seq<(string, int)>): (r: seq<Message>)
    ensures |r| == |pairs|
  {
    seq(|pairs|, i requires 0 <= i < |pairs| => CommitRequest(pairs[i]))
  }

  function FatesFor(fates: map<string, Fate>, keys: seq<string>): (r: seq<Fate>)
    ensures |r| == |keys|
  {
    seq(|keys|, i requires 0 <= i < |keys| => FateOf(fates, keys[i]))
  }

  function PairKeys(pairs: seq<(string, int)>): (r: seq<string>)
    ensures |r| == |pairs|
  {
    seq(|pairs|, i requires 0 <= i < |pairs| => pairs[i].0)
  }

  /** Every key's poll result, in a map. */
  function PollResults(store: map<string, string>, offsets: map<string, int>, fates: map<string, Fate>): map<string, Option<seq<seq<int>>>> {
    map k | k in offsets :: PollKey(store, k, offsets[k], FateOf(fates, k))
  }

  /** All the values, when every one is present. */
  function Gather<V>(m: map<string, Option<V>>): (r: Option<map<string, V>>)
    ensures r.Some? <==> forall k :: k in m ==> m[k].Some?
    ensures r.Some? ==> r.value.Keys == m.Keys && forall k :: k in m ==> m[k] == Some(r.value[k])
  {
    if forall k :: k in m ==> m[k].Some? then Some(map k | k in m :: m[k].value) else None
  }

  /** The `poll_ok` map: every key's reply, or None when any key fails. */
  function PollAll(store: map<string, string>, offsets: map<string, int>, fates: map<string, Fate>): Option<map<string, seq<seq<int>>>> {
    Gather(PollResults(store, offsets, fates))
  }

  /** The `poll_ok` map built key by key in the order `keys`; None from the first key whose poll fails. */
  function PollSeq(store: map<string, string>, offsets: map<string, int>, keys: seq<string>, fates: map<string, Fate>): Option<map<string, seq<seq<int>>>>
    requires forall k :: k in keys ==> k in offsets
  {
    GatherSeq(PollResults(store, offsets, fates), keys)
  }

  /** How many reads a poll makes: all of them, or up to the first that fails. */
  function PollCalls(store: map<string, string>, offsets: map<string, int>, keys: seq<string>, fates: map<string, Fate>): (n: nat)
    requires forall k :: k in keys ==> k in offsets
    ensures n <= |keys|
  {
    GatherCalls(PollResults(store, offsets, fates), keys)
  }

  /**
   * However the dictionary of requested offsets is enumerated, the poll
   * replies with the same map: the one holding every key's result.
   */
  lemma PollInAnyOrder(store: map<string, string>, offsets: map<string, int>, keys: seq<string>, fates: map<string, Fate>)
    requires Enumerates(keys, offsets)
    ensures PollSeq(store, offsets, keys, fates) == PollAll(store, offsets, fates)
  {
    GatherInAnyOrder(PollResults(store, offsets, fates), keys);
  }

  /** Where a `send` is handled: None when its key or message is missing or the placement throws. */
  function SendRoute(b: Body, nodeId: string, n: nat): (r: Option<Placement>)
    ensures b.key.None? || b.msg.None? ==> r.None?
    ensures b.key.Some? && b.msg.Some? ==> r == PlacementOf(b.key.value, nodeId, n)
  {
    if b.key.None? || b.msg.None? then None else PlacementOf(b.key.value, nodeId, n)
  }

  function ForwardRequest(key: string, msg: int, rem: int): Message {
    Message("", NodeName(rem), Typed(MsgType.Send).(key := Some(key), msg := Some(msg)))
  }

  function SendOk(offset: Option<int>): Body {
    Typed(MsgType.SendOk).(offset := offset)
  }

  /** The values of `m` at `keys`, gathered in that order; None from the first missing one on. */
  function GatherSeq<V>(m: map<string, Option<V>>, keys: seq<string>): Option<map<string, V>>
    requires forall k :: k in keys ==> k in m
  {
    if keys == [] then Some(map[])
    else
      var k := keys[|keys| - 1];
      match GatherSeq(m, keys[..|keys| - 1])
      case None => None
      case Some(res) => if m[k].Some? then Some(res[k := m[k].value]) else None
  }

  /** How many values a gathering in order looks at: all of them, or up to the first missing one. */
  function GatherCalls<V>(m: map<string, Option<V>>, keys: seq<string>): (n: nat)
    requires forall k :: k in keys ==> k in m
    ensures n <= |keys|
  {
    if keys == [] then 0
    else if GatherSeq(m, keys[..|keys| - 1]).None? then GatherCalls(m, keys[..|keys| - 1])
    else |keys|
  }

  /** One more key of a gathering: a missing value ends it, a present one is added. */
  lemma GatherSnoc<V>(m: map<string, Option<V>>, keys: seq<string>, i: nat, found: map<string, V>)
    requires i < |keys| && forall k :: k in keys ==> k in m
    requires GatherSeq(m, keys[..i]) == Some(found) && GatherCalls(m, keys[..i]) == i
    ensures m[keys[i]].None? ==> GatherSeq(m, keys[..i + 1]).None?
    ensures m[keys[i]].Some? ==> GatherCalls(m, keys[..i + 1]) == i + 1
    ensures m[keys[i]].Some? ==> GatherSeq(m, keys[..i + 1]) == Some(found[keys[i] := m[keys[i]].value])
  {
    assert keys[..i + 1][..i] == keys[..i];
  }

  /** After a missing value the gathering stays failed and looks at nothing more. */
  lemma GatherFailedSnoc<V>(m: map<string, Option<V>>, keys: seq<string>, n: nat)
    requires n < |keys| && forall k :: k in keys ==> k in m
    requires GatherSeq(m, keys[..n]).None?
    ensures GatherSeq(m, keys[..n + 1]).None?
    ensures GatherCalls(m, keys[..n + 1]) == GatherCalls(m, keys[..n])
  {
    assert keys[..n + 1][..n] == keys[..n];
  }

  /** Once failed at prefix j, the gathering stays failed at every longer prefix, having looked at the same values. */
  lemma {:induction false} GatherStaysFailed<V>(m: map<string, Option<V>>, keys: seq<string>, j: nat, n: nat)
    requires j <= n <= |keys| && forall k :: k in keys ==> k in m
    requires GatherSeq(m, keys[..j]).None?
    ensures GatherSeq(m, keys[..n]).None?
    ensures GatherCalls(m, keys[..n]) == GatherCalls(m, keys[..j])
    decreases n
  {
    if n > j {
      GatherStaysFailed(m, keys, j, n - 1);
      GatherFailedSnoc(m, keys, n - 1);
    }
  }

  /** Gathering in order succeeds exactly when every value at `keys` is present, and then holds those values. */
  lemma {:induction false} GatherSeqOf<V>(m: map<string, Option<V>>, keys: seq<string>)
    requires forall k :: k in keys ==> k in m
    ensures GatherSeq(m, keys).Some? <==> forall k :: k in keys ==> m[k].Some?
    ensures GatherSeq(m, keys).Some? ==>
      (forall k :: k in GatherSeq(m, keys).value <==> k in keys) &&
      forall k :: k in keys ==> m[k] == Some(GatherSeq(m, keys).value[k])
  {
    if keys != [] {
      var front := keys[..|keys| - 1];
      assert forall k :: k in keys <==> k in front || k == keys[|keys| - 1];
      GatherSeqOf(m, front);
    }
  }

  /** The order of the gathering does not matter: gathering every key in any order is Gather. */
  lemma GatherInAnyOrder<V>(m: map<string, Option<V>>, keys: seq<string>)
    requires forall k :: k in keys <==> k in m
    ensures GatherSeq(m, keys) == Gather(m)
  {
    GatherSeqOf(m, keys);
    if GatherSeq(m, keys).Some? {
      assert GatherSeq(m, keys).value == Gather(m).value;
    }
  }

  /** One more key of a listing: its read either fails, ending the listing, or adds what it found. */
  lemma ListSnoc(store: map<string, string>, keys: seq<string>, i: nat, fates: map<string, Fate>, found: map<string, int>)
    requires i < |keys| && ListOffsets(store, keys[..i], fates) == Some(found) && ListCalls(store, keys[..i], fates) == i
    ensures var c := CommittedOffset(store, keys[i], FateOf(fates, keys[i]));
      && (c.None? ==> ListOffsets(store, keys[..i + 1], fates).None?)
      && (c.Some? ==> ListCalls(store, keys[..i + 1], fates) == i + 1)
      && (c.Some? ==> ListOffsets(store, keys[..i + 1], fates) == Some(if c.value.Some? then found[keys[i] := c.value.value] else found))
  {
    assert keys[..i + 1][..i] == keys[..i];
  }

  /** One more key of a poll: its read either fails, ending the poll, or adds its pairs. */
  lemma PollSnoc(store: map<string, string>, offsets: map<string, int>, keys: seq<string>, i: nat, fates: map<string, Fate>,
                 found: map<string, seq<seq<int>>>)
    requires i < |keys| && forall k :: k in keys ==> k in offsets
    requires PollSeq(store, offsets, keys[..i], fates) == Some(found) && PollCalls(store, offsets, keys[..i], fates) == i
    ensures var p := PollKey(store, keys[i], offsets[keys[i]], FateOf(fates, keys[i]));
      && (p.None? ==> PollSeq(store, offsets, keys[..i + 1], fates).None?)
      && (p.Some? ==> PollCalls(store, offsets, keys[..i + 1], fates) == i + 1)
      && (p.Some? ==> PollSeq(store, offsets, keys[..i + 1], fates) == Some(found[keys[i] := p.value]))
  {
    GatherSnoc(PollResults(store, offsets, fates), keys, i, found);
  }

  /** The poll stops at the first failed read: it fails, and that read is the last one sent. */
  lemma PollStopsAt(store: map<string, string>, offsets: map<string, int>, keys: seq<string>, fates: map<string, Fate>, j: nat)
    requires 0 < j <= |keys| && forall k :: k in keys ==> k in offsets
    requires PollSeq(store, offsets, keys[..j - 1], fates).Some? && PollSeq(store, offsets, keys[..j], fates).None?
    ensures PollSeq(store, offsets, keys, fates).None? && PollCalls(store, offsets, keys, fates) == j
  {
    var m := PollResults(store, offsets, fates);
    assert keys[..j][..j - 1] == keys[..j - 1];
    assert GatherCalls(m, keys[..j]) == j;
    GatherStaysFailed(m, keys, j, |keys|);
    assert keys[..|keys|] == keys;
  }

  /** After a failed read the listing stays failed and sends no further read. */
  lemma ListFailedSnoc(store: map<string, string>, keys: seq<string>, m: nat, fates: map<string, Fate>)
    requires m < |keys| && ListOffsets(store, keys[..m], fates).None?
    ensures ListOffsets(store, keys[..m + 1], fates).None?
    ensures ListCalls(store, keys[..m + 1], fates) == ListCalls(store, keys[..m], fates)
  {
    assert keys[..m + 1][..m] == keys[..m];
  }

  /** Once failed at prefix j, the listing stays failed at every longer prefix, with the same reads sent. */
  lemma {:induction false} ListStaysFailed(store: map<string, string>, keys: seq<string>, fates: map<string, Fate>, j: nat, m: nat)
    requires j <= m <= |keys| && ListOffsets(store, keys[..j], fates).None?
    ensures ListOffsets(store, keys[..m], fates).None?
    ensures ListCalls(store, keys[..m], fates) == ListCalls(store, keys[..j], fates)
    decreases m
  {
    if m > j {
      ListStaysFailed(store, keys, fates, j, m - 1);
      ListFailedSnoc(store, keys, m - 1, fates);
    }
  }

  /** The listing stops at the first failed read: it fails, and that read is the last one sent. */
  lemma ListStopsAt(store: map<string, string>, keys: seq<string>, fates: map<string, Fate>, j: nat)
    requires 0 < j <= |keys|
    requires ListOffsets(store, keys[..j - 1], fates).Some? && ListOffsets(store, keys[..j], fates).None?
    ensures ListOffsets(store, keys, fates).None? && ListCalls(store, keys, fates) == j
  {
    assert keys[..j][..j - 1] == keys[..j - 1];
    ListStaysFailed(store, keys, fates, j, |keys|);
    assert keys[..|keys|] == keys;
  }

  /** The (key, offset) pairs of a `commit_offsets` request, in enumeration order. */
  function CommitPairs(offsets: map<string, int>, keys: seq<string>): (r: seq<(string, int)>)
    requires forall k :: k in keys ==> k in offsets
    ensures |r| == |keys| && PairKeys(r) == keys
    ensures Distinct(keys) ==> DistinctKeys(r)
  {
    var r := seq(|keys|, i requires 0 <= i < |keys| => (keys[i], offsets[keys[i]]));
    assert PairKeys(r) == keys;
    r
  }

  /** How many writes a series of commits sends: up to and including the first failed one. */
  function CommitCalls(store: map<string, string>, pairs: seq<(string, int)>, fates: map<string, Fate>): (n: nat)
    ensures n <= |pairs|
  {
    if pairs == [] then 0
    else if !CommitSeq(store, pairs[..|pairs| - 1], fates).ok then CommitCalls(store, pairs[..|pairs| - 1], fates)
    else |pairs|
  }

  /** The commits stop at the first failed write: it fails, and that write is the last one sent. */
  lemma {:induction false} CommitStopsAt(store: map<string, string>, pairs: seq<(string, int)>, fates: map<string, Fate>, j: nat)
    requires 0 < j <= |pairs|
    requires CommitSeq(store, pairs[..j - 1], fates).ok && !CommitSeq(store, pairs[..j], fates).ok
    ensures CommitSeq(store, pairs, fates) == CommitSeq(store, pairs[..j], fates) && CommitCalls(store, pairs, fates) == j
    decreases |pairs|
  {
    if |pairs| == j {
      assert pairs[..j] == pairs;
    } else {
      var front := pairs[..|pairs| - 1];
      assert front[..j] == pairs[..j] && front[..j - 1] == pairs[..j - 1];
      CommitStopsAt(store, front, fates, j);
    }
  }

  /** The requests of the first i + 1 keys: those of the first i, then key i's. */
  lemma RequestsSnoc(keys: seq<string>, i: nat, fates: map<string, Fate>)
    requires i < |keys|
    ensures ListRequests(keys[..i + 1]) == ListRequests(keys[..i]) + [LinKV.ReadRequest(ClientKey(keys[i]))]
    ensures PollRequests(keys[..i + 1]) == PollRequests(keys[..i]) + [LinKV.ReadRequest(EntryKey(keys[i]))]
    ensures FatesFor(fates, keys[..i + 1]) == FatesFor(fates, keys[..i]) + [FateOf(fates, keys[i])]
  {
  }

  /** The writes of the first i + 1 pairs: those of the first i, then pair i's, which runs only after success. */
  lemma CommitSnoc(store: map<string, string>, pairs: seq<(string, int)>, i: nat, fates: map<string, Fate>)
    requires i < |pairs|
    ensures CommitRequests(pairs[..i + 1]) == CommitRequests(pairs[..i]) + [CommitRequest(pairs[i])]
    ensures FatesFor(fates, PairKeys(pairs[..i + 1])) == FatesFor(fates, PairKeys(pairs[..i])) + [FateOf(fates, pairs[i].0)]
    ensures var r := CommitSeq(store, pairs[..i], fates);
      var fate := FateOf(fates, pairs[i].0);
      var step := CommitResult(Stored(fate, r.store, ClientKey(pairs[i].0), IntToString(pairs[i].1)), fate.Answered?);
      r.ok ==> CommitSeq(store, pairs[..i + 1], fates) == step
  {
    assert pairs[..i + 1][..i] == pairs[..i];
    assert PairKeys(pairs[..i + 1]) == PairKeys(pairs[..i]) + [pairs[i].0];
  }

  class KafkaNode {
    const rt: Server
    var store: map<string, string>   // the shared `lin-kv` store, as this node's requests find it

    ghost predicate Valid()
      reads this, rt
    {
      rt.Valid()
    }

    constructor (shared: map<string, string>)
      ensures Valid() && fresh(rt) && store == shared
      ensures rt.handlers == {MsgType.Init, MsgType.Send, MsgType.Poll, MsgType.CommitOffsets, MsgType.ListCommittedOffsets}
      ensures rt.msgId == 0 && rt.pending == map[] && rt.outbox == []
    {
      var s := new Server();
      var ok := s.On(MsgType.Send);
      ok := s.On(MsgType.Poll);
      ok := s.On(MsgType.CommitOffsets);
      ok := s.On(MsgType.ListCommittedOffsets);
      rt := s;
      store := shared;
    }

    /** One `lin-kv` round trip, applied to the store as its fate says. */
    method StoreCall(req: Message, fate: Fate) returns (outcome: RpcOutcome)
      requires Valid() && req.body.msgId.None?
      modifies this`store, rt`msgId, rt`pending, rt`outbox
      ensures Valid() && store == Effect(fate, old(store), req)
      ensures outcome == Outcome(fate, old(store), Outgoing(rt.nodeId, req, rt.msgId))
      ensures rt.msgId == old(rt.msgId) + 1
      ensures rt.outbox == old(rt.outbox) + [Outgoing(rt.nodeId, req, rt.msgId)]
      ensures rt.pending == SlotsAfter(old(rt.pending), fate, rt.msgId)
    {
      var after;
      outcome, after := Call(rt, store, req, fate);
      store := after;
    }

    // -------------------------------------------------------------- send

    method ReadLatest(key: string, fate: Fate) returns (off: Option<int>)
      requires Valid()
      modifies this`store, rt`msgId, rt`pending, rt`outbox
      ensures Valid() && store == old(store) && off == NextOffset(store, key, fate)
      ensures rt.msgId == old(rt.msgId) + 1
      ensures rt.outbox == old(rt.outbox) + [Outgoing(rt.nodeId, LinKV.ReadRequest(LatestKey(key)), rt.msgId)]
      ensures rt.pending == SlotsAfter(old(rt.pending), fate, rt.msgId)
    {
      var req := LinKV.ReadRequest(LatestKey(key));
      var outcome := StoreCall(req, fate);
      EnvelopeIrrelevant(fate, old(store), req, rt.nodeId, rt.msgId, 0);
      ReadStringFromStore(LinKV, old(store), LatestKey(key));
      var r := Read(outcome);
      off := match r
        case Ok(v) => Some(v + 1)
        case Fail(KeyNotFound(_)) => Some(0)
        case _ => None;
    }

    method WriteLatest(key: string, off: int, fate: Fate) returns (ok: bool)
      requires Valid()
      modifies this`store, rt`msgId, rt`pending, rt`outbox
      ensures Valid() && store == Stored(fate, old(store), LatestKey(key), IntToString(off)) && ok == fate.Answered?
      ensures rt.msgId == old(rt.msgId) + 1
      ensures rt.outbox == old(rt.outbox) + [Outgoing(rt.nodeId, WriteLatestRequest(key, off), rt.msgId)]
      ensures rt.pending == SlotsAfter(old(rt.pending), fate, rt.msgId)
    {
      var req := WriteLatestRequest(key, off);
      var outcome := StoreCall(req, fate);
      EnvelopeIrrelevant(fate, old(store), req, rt.nodeId, rt.msgId, 0);
      WriteWithFate(LinKV, old(store), LatestKey(key), IntToString(off), fate);
      ok := WriteString(outcome).Ok?;
    }

    method ReadLogText(key: string, fate: Fate) returns (v: Option<string>)
      requires Valid()
      modifies this`store, rt`msgId, rt`pending, rt`outbox
      ensures Valid() && store == old(store) && v == AppendBase(store, key, fate)
      ensures rt.msgId == old(rt.msgId) + 1
      ensures rt.outbox == old(rt.outbox) + [Outgoing(rt.nodeId, LinKV.ReadRequest(EntryKey(key)), rt.msgId)]
      ensures rt.pending == SlotsAfter(old(rt.pending), fate, rt.msgId)
    {
      var req := LinKV.ReadRequest(EntryKey(key));
      var outcome := StoreCall(req, fate);
      EnvelopeIrrelevant(fate, old(store), req, rt.nodeId, rt.msgId, 0);
      ReadStringFromStore(LinKV, old(store), EntryKey(key));
      var r := ReadString(outcome);
      v := match r
        case Ok(text) => Some(text.GetOr(""))
        case Fail(KeyNotFound(_)) => Some("")
        case _ => None;
    }

    method WriteLogText(key: string, base: string, off: int, value: int, fate: Fate) returns (ok: bool)
      requires Valid()
      modifies this`store, rt`msgId, rt`pending, rt`outbox
      ensures Valid() && store == Stored(fate, old(store), EntryKey(key), base + EntryText(Entry(off, value))) && ok == fate.Answered?
      ensures rt.msgId == old(rt.msgId) + 1
      ensures rt.outbox == old(rt.outbox) + [Outgoing(rt.nodeId, WriteEntryRequest(key, base, off, value), rt.msgId)]
      ensures rt.pending == SlotsAfter(old(rt.pending), fate, rt.msgId)
    {
      var req := WriteEntryRequest(key, base, off, value);
      var outcome := StoreCall(req, fate);
      EnvelopeIrrelevant(fate, old(store), req, rt.nodeId, rt.msgId, 0);
      WriteWithFate(LinKV, old(store), EntryKey(key), base + EntryText(Entry(off, value)), fate);
      ok := WriteString(outcome).Ok?;
    }

    /** The second half of the owner's append, proved against AppendEntry. */
    method AppendEntryLocal(key: string, off: int, value: int, f: SendFates) returns (reported: Option<int>)
      requires Valid()
      modifies this`store, rt`msgId, rt`pending, rt`outbox
      ensures Valid()
      ensures var t := AppendEntry(old(store), key, off, value, f);
        && store == t.store && reported == t.offset
        && Series(rt.nodeId, old(rt.msgId), old(rt.outbox), old(rt.pending), t.calls, t.fates, rt.msgId, rt.outbox, rt.pending)
    {
      ghost var (m0, o0, p0) := (rt.msgId, rt.outbox, rt.pending);
      var re := LinKV.ReadRequest(EntryKey(key));
      var text := ReadLogText(key, f.readEntry);
      SeriesOne(rt.nodeId, m0, o0, p0, re, f.readEntry);
      if text.None? {
        return None;
      }
      ghost var (m1, o1, p1) := (rt.msgId, rt.outbox, rt.pending);
      var we := WriteEntryRequest(key, text.value, off, value);
      var ok := WriteLogText(key, text.value, off, value, f.writeEntry);
      SeriesStep(rt.nodeId, m0, o0, p0, [re], [f.readEntry], m1, o1, p1, we, f.writeEntry);
      assert [re] + [we] == [re, we] && [f.readEntry] + [f.writeEntry] == [f.readEntry, f.writeEntry];
      reported := if ok then Some(off) else None;
    }

    /** The first half of the owner's append, proved against Claim. */
    method ClaimOffset(key: string, f: SendFates) returns (off: Option<int>)
      requires Valid()
      modifies this`store, rt`msgId, rt`pending, rt`outbox
      ensures Valid()
      ensures var c := Claim(old(store), key, f);
        && store == c.store && off == c.offset
        && Series(rt.nodeId, old(rt.msgId), old(rt.outbox), old(rt.pending), c.calls, c.fates, rt.msgId, rt.outbox, rt.pending)
    {
      ghost var (m0, o0, p0) := (rt.msgId, rt.outbox, rt.pending);
      var rl := LinKV.ReadRequest(LatestKey(key));
      off := ReadLatest(key, f.readLatest);
      SeriesOne(rt.nodeId, m0, o0, p0, rl, f.readLatest);
      if off.None? {
        return;
      }
      ghost var (m1, o1, p1) := (rt.msgId, rt.outbox, rt.pending);
      var o := off.value;
      var wl := WriteLatestRequest(key, o);
      var ok := WriteLatest(key, o, f.writeLatest);
      SeriesStep(rt.nodeId, m0, o0, p0, [rl], [f.readLatest], m1, o1, p1, wl, f.writeLatest);
      assert [rl] + [wl] == [rl, wl] && [f.readLatest] + [f.writeLatest] == [f.readLatest, f.writeLatest];
      if !ok {
        off := None;
      }
    }

    /** The owner's append, proved against Append: the store, the reported offset and the round trips made. */
    method AppendLocal(key: string, value: int, f: SendFates) returns (off: Option<int>)
      requires Valid()
      modifies this`store, rt`msgId, rt`pending, rt`outbox
      ensures Valid()
      ensures var r := Append(old(store), key, value, f);
        && store == r.store && off == r.offset
        && Series(rt.nodeId, old(rt.msgId), old(rt.outbox), old(rt.pending), r.calls, r.fates, rt.msgId, rt.outbox, rt.pending)
    {
      ghost var (m0, o0, p0) := (rt.msgId, rt.outbox, rt.pending);
      ghost var c := Claim(store, key, f);
      off := ClaimOffset(key, f);
      if off.None? {
        return;
      }
      ghost var (m1, o1, p1) := (rt.msgId, rt.outbox, rt.pending);
      ghost var t := AppendEntry(store, key, off.value, value, f);
      off := AppendEntryLocal(key, off.value, value, f);
      SeriesConcat(rt.nodeId, m0, o0, p0, c.calls, c.fates, m1, o1, p1, t.calls, t.fates, rt.msgId, rt.outbox, rt.pending);
    }

    /** The forwarding half of `send`: one request to node `n<rem>`, answered with the offset it reports. */
    method Forward(key: string, msg: int, rem: int, answer: Option<Body>) returns (reply: Option<Body>)
      requires Valid()
      modifies rt`msgId, rt`pending, rt`outbox
      ensures Valid()
      ensures var answered := answer.Some? && answer.value.typ.Some?;
        && reply == (if answered then Some(SendOk(answer.value.offset)) else None)
        && Series(rt.nodeId, old(rt.msgId), old(rt.outbox), old(rt.pending),
                  [ForwardRequest(key, msg, rem)], [if answered then Answered else Lost], rt.msgId, rt.outbox, rt.pending)
    {
      var forward := ForwardRequest(key, msg, rem);
      ghost var answered := answer.Some? && answer.value.typ.Some?;
      SeriesOne(rt.nodeId, rt.msgId, rt.outbox, rt.pending, forward, if answered then Answered else Lost);
      var outcome := rt.Exchange(forward, answer);
      reply := match outcome
        case Replied(m) => Some(SendOk(m.body.offset))
        case TimedOut => None;
    }

    /**
     * `send`: a record for a key another node handles is forwarded there and
     * its answer's offset returned (`answer` is that node's reply, None when
     * none arrives in time); a record for a key this node handles is
     * appended under the key's lock. No reply when the request is malformed,
     * the forward times out or an append step fails.
     */
    method HandleSend(request: Message, f: SendFates, answer: Option<Body>) returns (reply: Option<Body>)
      requires Valid()
      modifies this`store, rt`msgId, rt`pending, rt`outbox
      ensures Valid()
      ensures var route := SendRoute(request.body, rt.nodeId, |rt.nodeIds|);
        route.None? ==>
          reply == None && store == old(store)
          && rt.msgId == old(rt.msgId) && rt.outbox == old(rt.outbox) && rt.pending == old(rt.pending)
      ensures var route := SendRoute(request.body, rt.nodeId, |rt.nodeIds|);
        route.Some? && route.value.Elsewhere? ==>
          var answered := answer.Some? && answer.value.typ.Some?;
          && store == old(store)
          && reply == (if answered then Some(SendOk(answer.value.offset)) else None)
          && Series(rt.nodeId, old(rt.msgId), old(rt.outbox), old(rt.pending),
                    [ForwardRequest(request.body.key.value, request.body.msg.value, route.value.rem)],
                    [if answered then Answered else Lost], rt.msgId, rt.outbox, rt.pending)
      ensures var route := SendRoute(request.body, rt.nodeId, |rt.nodeIds|);
        route == Some(Owned) ==>
          var r := Append(old(store), request.body.key.value, request.body.msg.value, f);
          && store == r.store
          && reply == (if r.offset.Some? then Some(SendOk(r.offset)) else None)
          && Series(rt.nodeId, old(rt.msgId), old(rt.outbox), old(rt.pending), r.calls, r.fates, rt.msgId, rt.outbox, rt.pending)
    {
      var route := SendRoute(request.body, rt.nodeId, |rt.nodeIds|);
      if route.None? {
        return None;
      }
      var key, msg := request.body.key.value, request.body.msg.value;
      match route.value
      case Elsewhere(rem) =>
        reply := Forward(key, msg, rem, answer);
      case Owned =>
        var off := AppendLocal(key, msg, f);
        reply := if off.Some? then Some(SendOk(off)) else None;
    }

    /** One read of a key's log; the store is not changed. */
    method PollOne(key: string, offset: int, fate: Fate) returns (pairs: Option<seq<seq<int>>>)
      requires Valid()
      modifies this`store, rt`msgId, rt`pending, rt`outbox
      ensures Valid() && store == old(store) && pairs == PollKey(store, key, offset, fate)
      ensures rt.msgId == old(rt.msgId) + 1
      ensures rt.outbox == old(rt.outbox) + [Outgoing(rt.nodeId, LinKV.ReadRequest(EntryKey(key)), rt.msgId)]
      ensures rt.pending == SlotsAfter(old(rt.pending), fate, rt.msgId)
    {
      var req := LinKV.ReadRequest(EntryKey(key));
      var outcome := StoreCall(req, fate);
      EnvelopeIrrelevant(fate, old(store), req, rt.nodeId, rt.msgId, 0);
      ReadStringFromStore(LinKV, old(store), EntryKey(key));
      var text := match ReadString(outcome)
        case Ok(Some(v)) => Some(v)
        case Fail(KeyNotFound(_)) => Some("")
        case _ => None;
      if text.None? {
        return None;
      }
      var logs := ToEntries(text.value);
      if logs.None? {
        return None;
      }
      var ind := StartIndex(logs.value, offset);
      var collected := Collect(logs.value, ind);
      pairs := Some(collected);
    }

    /** Reads one consumer's committed offset; the store is not changed. */
    method ReadClientCommitOffset(key: string, fate: Fate) returns (committed: Option<Option<int>>)
      requires Valid()
      modifies this`store, rt`msgId, rt`pending, rt`outbox
      ensures Valid() && store == old(store) && committed == CommittedOffset(store, key, fate)
      ensures rt.msgId == old(rt.msgId) + 1
      ensures rt.outbox == old(rt.outbox) + [Outgoing(rt.nodeId, LinKV.ReadRequest(ClientKey(key)), rt.msgId)]
      ensures rt.pending == SlotsAfter(old(rt.pending), fate, rt.msgId)
    {
      var req := LinKV.ReadRequest(ClientKey(key));
      var outcome := StoreCall(req, fate);
      EnvelopeIrrelevant(fate, old(store), req, rt.nodeId, rt.msgId, 0);
      ReadStringFromStore(LinKV, old(store), ClientKey(key));
      committed := match Read(outcome)
        case Ok(v) => Some(Some(v))
        case Fail(KeyNotFound(_)) => Some(None)
        case _ => None;
    }

    /** Writes one consumer's committed offset. */
    method CommitClientOffset(p: (string, int), fate: Fate) returns (ok: bool)
      requires Valid()
      modifies this`store, rt`msgId, rt`pending, rt`outbox
      ensures Valid() && store == Stored(fate, old(store), ClientKey(p.0), IntToString(p.1)) && ok == fate.Answered?
      ensures rt.msgId == old(rt.msgId) + 1
      ensures rt.outbox == old(rt.outbox) + [Outgoing(rt.nodeId, CommitRequest(p), rt.msgId)]
      ensures rt.pending == SlotsAfter(old(rt.pending), fate, rt.msgId)
    {
      var outcome := StoreCall(CommitRequest(p), fate);
      EnvelopeIrrelevant(fate, old(store), CommitRequest(p), rt.nodeId, rt.msgId, 0);
      WriteWithFate(LinKV, old(store), ClientKey(p.0), IntToString(p.1), fate);
      ok := WriteString(outcome).Ok?;
    }

    /** One read of a `list_committed_offsets` request, extending the series of reads. */
    method ListStep(keys: seq<string>, i: nat, fates: map<string, Fate>, ghost base: int, ghost out0: seq<Message>, ghost slots0: map<int, Slot>)
        returns (committed: Option<Option<int>>)
      requires Valid() && i < |keys|
      requires Series(rt.nodeId, base, out0, slots0, ListRequests(keys[..i]), FatesFor(fates, keys[..i]), rt.msgId, rt.outbox, rt.pending)
      modifies this`store, rt`msgId, rt`pending, rt`outbox
      ensures Valid() && store == old(store) && committed == CommittedOffset(store, keys[i], FateOf(fates, keys[i]))
      ensures Series(rt.nodeId, base, out0, slots0, ListRequests(keys[..i + 1]), FatesFor(fates, keys[..i + 1]), rt.msgId, rt.outbox, rt.pending)
    {
      var k := keys[i];
      ghost var (id0, outbox0, pending0) := (rt.msgId, rt.outbox, rt.pending);
      committed := ReadClientCommitOffset(k, FateOf(fates, k));
      SeriesStep(rt.nodeId, base, out0, slots0, ListRequests(keys[..i]), FatesFor(fates, keys[..i]),
                 id0, outbox0, pending0, LinKV.ReadRequest(ClientKey(k)), FateOf(fates, k));
      RequestsSnoc(keys, i, fates);
    }

    /** One key of a `poll` request, extending the series of reads. */
    method PollStep(offsets: map<string, int>, keys: seq<string>, i: nat, fates: map<string, Fate>,
                    ghost base: int, ghost out0: seq<Message>, ghost slots0: map<int, Slot>)
        returns (pairs: Option<seq<seq<int>>>)
      requires Valid() && i < |keys| && keys[i] in offsets
      requires Series(rt.nodeId, base, out0, slots0, PollRequests(keys[..i]), FatesFor(fates, keys[..i]), rt.msgId, rt.outbox, rt.pending)
      modifies this`store, rt`msgId, rt`pending, rt`outbox
      ensures Valid() && store == old(store) && pairs == PollKey(store, keys[i], offsets[keys[i]], FateOf(fates, keys[i]))
      ensures Series(rt.nodeId, base, out0, slots0, PollRequests(keys[..i + 1]), FatesFor(fates, keys[..i + 1]), rt.msgId, rt.outbox, rt.pending)
    {
      var k := keys[i];
      ghost var (id0, outbox0, pending0) := (rt.msgId, rt.outbox, rt.pending);
      pairs := PollOne(k, offsets[k], FateOf(fates, k));
      SeriesStep(rt.nodeId, base, out0, slots0, PollRequests(keys[..i]), FatesFor(fates, keys[..i]),
                 id0, outbox0, pending0, LinKV.ReadRequest(EntryKey(k)), FateOf(fates, k));
      RequestsSnoc(keys, i, fates);
    }

    /**
     * `list_committed_offsets`: the committed offset of each requested key,
     * read in request order; keys never committed are left out, and the
     * first failed read ends the handler without a reply.
     */
    method HandleListCommitOffsets(request: Message, fates: map<string, Fate>) returns (reply: Option<Body>)
      requires Valid()
      modifies this`store, rt`msgId, rt`pending, rt`outbox
      ensures Valid() && store == old(store)
      ensures request.body.keys.None? ==>
        reply == None && rt.msgId == old(rt.msgId) && rt.outbox == old(rt.outbox) && rt.pending == old(rt.pending)
      ensures request.body.keys.Some? ==>
        var keys := request.body.keys.value;
        var n := ListCalls(store, keys, fates);
        && reply == (match ListOffsets(store, keys, fates)
                     case Some(m) => Some(Typed(MsgType.ListCommittedOffsetsOk).(offsets := Some(m)))
                     case None => None)
        && Series(rt.nodeId, old(rt.msgId), old(rt.outbox), old(rt.pending),
                  ListRequests(keys[..n]), FatesFor(fates, keys[..n]), rt.msgId, rt.outbox, rt.pending)
    {
      if request.body.keys.None? {
        return None;
      }
      var res := ListCommitted(request.body.keys.value, fates);
      reply := match res
        case Some(m) => Some(Typed(MsgType.ListCommittedOffsetsOk).(offsets := Some(m)))
        case None => None;
    }

    /** The loop of `list_committed_offsets`, proved against ListOffsets. */
    method ListCommitted(keys: seq<string>, fates: map<string, Fate>) returns (res: Option<map<string, int>>)
      requires Valid()
      modifies this`store, rt`msgId, rt`pending, rt`outbox
      ensures Valid() && store == old(store) && res == ListOffsets(store, keys, fates)
      ensures var n := ListCalls(store, keys, fates);
        Series(rt.nodeId, old(rt.msgId), old(rt.outbox), old(rt.pending),
               ListRequests(keys[..n]), FatesFor(fates, keys[..n]), rt.msgId, rt.outbox, rt.pending)
    {
      var found: map<string, int> := map[];
      var i := 0;
      assert keys[..0] == [];
      while i < |keys|
        invariant 0 <= i <= |keys| && Valid() && store == old(store)
        invariant ListOffsets(store, keys[..i], fates) == Some(found) && ListCalls(store, keys[..i], fates) == i
        invariant Series(rt.nodeId, old(rt.msgId), old(rt.outbox), old(rt.pending),
                         ListRequests(keys[..i]), FatesFor(fates, keys[..i]), rt.msgId, rt.outbox, rt.pending)
      {
        var k := keys[i];
        var committed := ListStep(keys, i, fates, old(rt.msgId), old(rt.outbox), old(rt.pending));
        ListSnoc(store, keys, i, fates, found);
        if committed.None? {
          ListStopsAt(store, keys, fates, i + 1);
          return None;
        }
        if committed.value.Some? {
          found := found[k := committed.value.value];
        }
        i := i + 1;
      }
      assert keys[..i] == keys;
      res := Some(found);
    }

    /** One write of a `commit_offsets` request, extending the series of writes. */
    method CommitStep(pairs: seq<(string, int)>, i: nat, fates: map<string, Fate>,
                      ghost base: int, ghost out0: seq<Message>, ghost slots0: map<int, Slot>, ghost start: map<string, string>)
        returns (ok: bool)
      requires Valid() && i < |pairs|
      requires CommitSeq(start, pairs[..i], fates) == CommitResult(store, true)
      requires Series(rt.nodeId, base, out0, slots0, CommitRequests(pairs[..i]), FatesFor(fates, PairKeys(pairs[..i])), rt.msgId, rt.outbox, rt.pending)
      modifies this`store, rt`msgId, rt`pending, rt`outbox
      ensures Valid() && CommitSeq(start, pairs[..i + 1], fates) == CommitResult(store, ok)
      ensures CommitCalls(start, pairs[..i + 1], fates) == i + 1
      ensures !ok ==> CommitSeq(start, pairs, fates) == CommitResult(store, false) && CommitCalls(start, pairs, fates) == i + 1
      ensures Series(rt.nodeId, base, out0, slots0, CommitRequests(pairs[..i + 1]), FatesFor(fates, PairKeys(pairs[..i + 1])), rt.msgId, rt.outbox, rt.pending)
    {
      var p := pairs[i];
      ghost var (id0, outbox0, pending0) := (rt.msgId, rt.outbox, rt.pending);
      ok := CommitClientOffset(p, FateOf(fates, p.0));
      SeriesStep(rt.nodeId, base, out0, slots0, CommitRequests(pairs[..i]), FatesFor(fates, PairKeys(pairs[..i])),
                 id0, outbox0, pending0, CommitRequest(p), FateOf(fates, p.0));
      CommitSnoc(start, pairs, i, fates);
      assert pairs[..i + 1][..i] == pairs[..i];
      if !ok {
        CommitStopsAt(start, pairs, fates, i + 1);
      }
    }

    /** The loop of `commit_offsets`, proved against CommitSeq. */
    method CommitAll(pairs: seq<(string, int)>, fates: map<string, Fate>) returns (ok: bool)
      requires Valid()
      modifies this`store, rt`msgId, rt`pending, rt`outbox
      ensures Valid() && CommitSeq(old(store), pairs, fates) == CommitResult(store, ok)
      ensures var n := CommitCalls(old(store), pairs, fates);
        Series(rt.nodeId, old(rt.msgId), old(rt.outbox), old(rt.pending),
               CommitRequests(pairs[..n]), FatesFor(fates, PairKeys(pairs[..n])), rt.msgId, rt.outbox, rt.pending)
    {
      ghost var (s0, id0, out0, slots0) := (store, rt.msgId, rt.outbox, rt.pending);
      var i := 0;
      assert pairs[..0] == [];
      while i < |pairs|
        invariant 0 <= i <= |pairs| && Valid()
        invariant CommitSeq(s0, pairs[..i], fates) == CommitResult(store, true)
        invariant CommitCalls(s0, pairs[..i], fates) == i
        invariant Series(rt.nodeId, id0, out0, slots0,
                         CommitRequests(pairs[..i]), FatesFor(fates, PairKeys(pairs[..i])), rt.msgId, rt.outbox, rt.pending)
      {
        ok := CommitStep(pairs, i, fates, id0, out0, slots0, s0);
        if !ok {
          return;
        }
        i := i + 1;
      }
      assert pairs[..i] == pairs;
      ok := true;
    }

    /**
     * `commit_offsets`: each requested offset is written in turn, in the
     * dictionary's enumeration order `keys`; the first failed write ends the
     * handler without a reply, keeping the writes before it.
     */
    method HandleCommitOffsets(request: Message, fates: map<string, Fate>) returns (reply: Option<Body>, ghost keys: seq<string>)
      requires Valid()
      modifies this`store, rt`msgId, rt`pending, rt`outbox
      ensures Valid()
      ensures request.body.offsets.None? ==>
        reply == None && keys == [] && store == old(store)
        && rt.msgId == old(rt.msgId) && rt.outbox == old(rt.outbox) && rt.pending == old(rt.pending)
      ensures request.body.offsets.Some? ==>
        var offsets := request.body.offsets.value;
        && Enumerates(keys, offsets)
        && var pairs := CommitPairs(offsets, keys);
        && var c := CommitSeq(old(store), pairs, fates);
        && var n := CommitCalls(old(store), pairs, fates);
        && DistinctKeys(pairs)
        && store == c.store
        && reply == (if c.ok then Some(Typed(MsgType.CommitOffsetsOk)) else None)
        && Series(rt.nodeId, old(rt.msgId), old(rt.outbox), old(rt.pending),
                  CommitRequests(pairs[..n]), FatesFor(fates, keys[..n]), rt.msgId, rt.outbox, rt.pending)
    {
      if request.body.offsets.None? {
        return None, [];
      }
      var offsets := request.body.offsets.value;
      var order := EnumerateKeys(offsets);
      keys := order;
      var pairs := CommitPairs(offsets, order);
      var ok := CommitAll(pairs, fates);
      ghost var n := CommitCalls(old(store), pairs, fates);
      assert PairKeys(pairs[..n]) == keys[..n];
      reply := if ok then Some(Typed(MsgType.CommitOffsetsOk)) else None;
    }

    /**
     * `poll`: each requested key's log from its offset on, read in the
     * dictionary's enumeration order `keys`; the store is only read, and the
     * first failed read or unparseable log ends the handler without a reply.
     * Which order the enumeration takes does not change the reply.
     */
    method HandlePoll(request: Message, fates: map<string, Fate>) returns (reply: Option<Body>, ghost keys: seq<string>)
      requires Valid()
      modifies this`store, rt`msgId, rt`pending, rt`outbox
      ensures Valid() && store == old(store)
      ensures request.body.offsets.None? ==>
        reply == None && keys == [] && rt.msgId == old(rt.msgId) && rt.outbox == old(rt.outbox) && rt.pending == old(rt.pending)
      ensures request.body.offsets.Some? ==>
        var offsets := request.body.offsets.value;
        && Enumerates(keys, offsets)
        && reply == (match PollAll(store, offsets, fates)
                     case Some(m) => Some(Typed(MsgType.PollOk).(msgs := Some(m)))
                     case None => None)
        && var n := PollCalls(store, offsets, keys, fates);
        && Series(rt.nodeId, old(rt.msgId), old(rt.outbox), old(rt.pending),
                  PollRequests(keys[..n]), FatesFor(fates, keys[..n]), rt.msgId, rt.outbox, rt.pending)
    {
      if request.body.offsets.None? {
        return None, [];
      }
      var offsets := request.body.offsets.value;
      var order := EnumerateKeys(offsets);
      keys := order;
      var res := PollLogs(offsets, order, fates);
      PollInAnyOrder(store, offsets, order, fates);
      reply := match res
        case Some(m) => Some(Typed(MsgType.PollOk).(msgs := Some(m)))
        case None => None;
    }

    /** The loop of `poll`, proved against PollSeq. */
    method PollLogs(offsets: map<string, int>, keys: seq<string>, fates: map<string, Fate>) returns (res: Option<map<string, seq<seq<int>>>>)
      requires Valid() && forall k :: k in keys ==> k in offsets
      modifies this`store, rt`msgId, rt`pending, rt`outbox
      ensures Valid() && store == old(store) && res == PollSeq(store, offsets, keys, fates)
      ensures var n := PollCalls(store, offsets, keys, fates);
        Series(rt.nodeId, old(rt.msgId), old(rt.outbox), old(rt.pending),
               PollRequests(keys[..n]), FatesFor(fates, keys[..n]), rt.msgId, rt.outbox, rt.pending)
    {
      var found: map<string, seq<seq<int>>> := map[];
      var i := 0;
      assert keys[..0] == [];
      while i < |keys|
        invariant 0 <= i <= |keys| && Valid() && store == old(store)
        invariant PollSeq(store, offsets, keys[..i], fates) == Some(found) && PollCalls(store, offsets, keys[..i], fates) == i
        invariant Series(rt.nodeId, old(rt.msgId), old(rt.outbox), old(rt.pending),
                         PollRequests(keys[..i]), FatesFor(fates, keys[..i]), rt.msgId, rt.outbox, rt.pending)
      {
        var pairs := PollStep(offsets, keys, i, fates, old(rt.msgId), old(rt.outbox), old(rt.pending));
        PollSnoc(store, offsets, keys, i, fates, found);
        if pairs.None? {
          PollStopsAt(store, offsets, keys, fates, i + 1);
          return None;
        }
        found := found[keys[i] := pairs.value];
        i := i + 1;
      }
      assert keys[..i] == keys;
      res := Some(found);
    }
  }

  /** The copy loop of a poll: every entry from `ind` on, as an [offset, message] pair. */
  method Collect(logs: seq<Entry>, ind: int) returns (pairs: seq<seq<int>>)
    requires 0 <= ind <= |logs|
    ensures pairs == Pairs(logs[ind..])
  {
    pairs := [];
    var i := ind;
    while i < |logs|
      invariant ind <= i <= |logs|
      invariant pairs == Pairs(logs[ind..i])
    {
      assert logs[ind..i + 1] == logs[ind..i] + [logs[i]];
      pairs := pairs + [[logs[i].offset, logs[i].message]];
      i := i + 1;
    }
    assert logs[ind..i] == logs[ind..];
  }
}
