/**
  Node priorities as text. The Controller's launcher prints them into an environment variable and the
  application parses them back. A dictionary keeps its insertion order: it is a list of entries with
  distinct keys.
 */
module Priorities {
  import opened Wrappers
  import opened Text

  datatype Entry = Entry(key: string, value: int)

  type Dict = seq<Entry>

  predicate DistinctKeys(d: Dict) {
    forall i, j | 0 <= i < j < |d| :: d[i].key != d[j].key
  }

  /** Sets a key: in place if it is there, at the end if not. */
  function Put(d: Dict, key: string, value: int): Dict {
    if d == [] then [Entry(key, value)]
    else if d[0].key == key then [Entry(key, value)] + d[1..]
    else [d[0]] + Put(d[1..], key, value)
  }

  datatype ParseError = NeedsKeyValue | NotAnInteger(key: string) | Negative(key: string)

  function ParseEntry(item: string): Result<Entry, ParseError> {
    var i := IndexOf(item, '=');
    var key := Strip(item[..i]);
    if i == |item| || key == "" then Err(NeedsKeyValue)
    else
      match ParseInt(item[i + 1..])
      case None => Err(NotAnInteger(key))
      case Some(value) => if value < 0 then Err(Negative(key)) else Ok(Entry(key, value))
  }

  function ParseEntries(entries: seq<string>, d: Dict): Result<Dict, ParseError> {
    if entries == [] then Ok(d)
    else
      var item := Strip(entries[0]);
      if item == "" then ParseEntries(entries[1..], d)
      else
        match ParseEntry(item)
        case Err(e) => Err(e)
        case Ok(entry) => ParseEntries(entries[1..], Put(d, entry.key, entry.value))
  }

  function Parsed(raw: Option<string>): Result<Dict, ParseError> {
    if raw.None? || raw.value == "" then Ok([]) else ParseEntries(Split(raw.value, ','), [])
  }

  /**
    What one entry means: the name before the first equals sign, trimmed, and the integer after it. Without the sign or
    the name it is no entry, and the two other errors name the key.
   */
  lemma EntryMeans(name: string, value: string)
    requires '=' !in name
    ensures ParseEntry(name) == Err(NeedsKeyValue)
    ensures ParseEntry(name + "=" + value) ==
            if Strip(name) == "" then Err(NeedsKeyValue)
            else if ParseInt(value).None? then Err(NotAnInteger(Strip(name)))
            else if ParseInt(value).value < 0 then Err(Negative(Strip(name)))
            else Ok(Entry(Strip(name), ParseInt(value).value))
  {
    hide Strip, ParseInt;
    IndexOfMissing(name, '=');
    IndexAfter(name, '=', value);
    var item := name + ['='] + value;
    assert item == name + "=" + value;
    assert item[..|name|] == name && item[|name| + 1..] == value;
  }

  // ---------------------------------------------------------------- what parsing means

  /** The entries that are not blank, trimmed. */
  function ItemsOf(entries: seq<string>): seq<string> {
    if entries == [] then []
    else (if Strip(entries[0]) == "" then [] else [Strip(entries[0])]) + ItemsOf(entries[1..])
  }

  /** Key a comes before key b in the list: it appears, and b does not appear up to there. */
  predicate ComesFirst(es: seq<Entry>, a: string, b: string) {
    exists i | 0 <= i < |es| :: es[i].key == a && forall j | 0 <= j <= i :: es[j].key != b
  }

  /** The entry is the last one of its key in the list. */
  predicate IsLast(es: seq<Entry>, e: Entry) {
    exists i | 0 <= i < |es| :: es[i] == e && forall j | i < j < |es| :: es[j].key != e.key
  }

  predicate HasKey(d: Dict, key: string) {
    exists k | 0 <= k < |d| :: d[k].key == key
  }

  /**
    A dictionary that takes in a list of entries: it has each key once, with the value of its last entry, and the
    keys stand in the order in which they first appear.
   */
  predicate TakesIn(d: Dict, es: seq<Entry>) {
    && DistinctKeys(d)
    && (forall e | e in es :: HasKey(d, e.key))
    && (forall k | 0 <= k < |d| :: IsLast(es, d[k]))
    && (forall k, l | 0 <= k < l < |d| :: ComesFirst(es, d[k].key, d[l].key))
  }

  predicate AllParse(items: seq<string>) {
    forall i | 0 <= i < |items| :: ParseEntry(items[i]).Ok?
  }

  function EntriesOf(items: seq<string>): seq<Entry>
    requires AllParse(items)
  {
    seq(|items|, i requires 0 <= i < |items| => ParseEntry(items[i]).value)
  }

  /** The error is that of the first item that does not parse. */
  predicate FirstError(items: seq<string>, e: ParseError) {
    exists i | 0 <= i < |items| :: ParseEntry(items[i]) == Err(e) && AllParse(items[..i])
  }

  /** What parsing the items should give: all of them taken in, or the error of the first malformed one. */
  predicate Meant(items: seq<string>, r: Result<Dict, ParseError>) {
    match r
    case Ok(d) => AllParse(items) && TakesIn(d, EntriesOf(items))
    case Err(e) => FirstError(items, e)
  }

  lemma {:induction false} PutAt(d: Dict, k: nat, key: string, value: int)
    requires DistinctKeys(d) && k < |d| && d[k].key == key
    ensures Put(d, key, value) == d[k := Entry(key, value)]
  {
    if k > 0 {
      assert d[0].key != key;
      PutAt(d[1..], k - 1, key, value);
      assert d == [d[0]] + d[1..];
    }
  }

  lemma {:induction false} PutFresh(d: Dict, key: string, value: int)
    requires forall e | e in d :: e.key != key
    ensures Put(d, key, value) == d + [Entry(key, value)]
  {
    if d != [] {
      PutFresh(d[1..], key, value);
      assert d == [d[0]] + d[1..];
    }
  }

  lemma LastStays(es: seq<Entry>, e: Entry, more: Entry)
    requires IsLast(es, e) && more.key != e.key
    ensures IsLast(es + [more], e)
  {
    var i :| 0 <= i < |es| && es[i] == e && forall j | i < j < |es| :: es[j].key != e.key;
    assert (es + [more])[i] == e;
  }

  lemma FirstStays(es: seq<Entry>, a: string, b: string, more: Entry)
    requires ComesFirst(es, a, b)
    ensures ComesFirst(es + [more], a, b)
  {
    var i :| 0 <= i < |es| && es[i].key == a && forall j | 0 <= j <= i :: es[j].key != b;
    assert (es + [more])[i].key == a;
  }

  lemma NewKeyComesAfter(es: seq<Entry>, earlier: Entry, more: Entry)
    requires IsLast(es, earlier) && forall e | e in es :: e.key != more.key
    ensures ComesFirst(es + [more], earlier.key, more.key)
  {
    var i :| 0 <= i < |es| && es[i] == earlier;
    assert (es + [more])[i].key == earlier.key;
    forall j | 0 <= j <= i ensures (es + [more])[j].key != more.key {
      assert es[j] in es;
    }
  }

  /** Setting a key replaces its entry, or adds one at the end, and leaves every other entry where it was. */
  lemma PutShape(d: Dict, e: Entry)
    requires DistinctKeys(d)
    ensures var d' := Put(d, e.key, e.value);
            && |d| <= |d'| <= |d| + 1 && DistinctKeys(d') && e in d'
            && (forall k | 0 <= k < |d| :: d'[k] == if d[k].key == e.key then e else d[k])
            && (|d'| > |d| ==> d'[|d|] == e && forall k | 0 <= k < |d| :: d[k].key != e.key)
  {
    if k: nat :| k < |d| && d[k].key == e.key {
      PutAt(d, k, e.key, e.value);
      assert Put(d, e.key, e.value)[k] == e;
    } else {
      PutFresh(d, e.key, e.value);
    }
  }

  lemma PutHasKeys(d: Dict, e: Entry, key: string)
    requires DistinctKeys(d) && (key == e.key || HasKey(d, key))
    ensures HasKey(Put(d, e.key, e.value), key)
  {
    PutShape(d, e);
    hide Put;
    var d' := Put(d, e.key, e.value);
    if key != e.key {
      var k :| 0 <= k < |d| && d[k].key == key;
      assert d'[k].key == key;
    }
  }

  lemma KeptIsLast(d: Dict, es: seq<Entry>, e: Entry, k: nat)
    requires TakesIn(d, es) && k < |Put(d, e.key, e.value)|
    ensures IsLast(es + [e], Put(d, e.key, e.value)[k])
  {
    PutShape(d, e);
    hide IsLast, ComesFirst, Put, HasKey;
    if Put(d, e.key, e.value)[k].key == e.key {
      NewestIsLast(es, e);
    } else {
      LastStays(es, d[k], e);
    }
  }

  lemma KeptInOrder(d: Dict, es: seq<Entry>, e: Entry, k: nat, l: nat)
    requires TakesIn(d, es) && k < l < |Put(d, e.key, e.value)|
    ensures ComesFirst(es + [e], Put(d, e.key, e.value)[k].key, Put(d, e.key, e.value)[l].key)
  {
    PutShape(d, e);
    hide IsLast, ComesFirst, Put;
    if l < |d| {
      FirstStays(es, d[k].key, d[l].key, e);
    } else {
      forall x | x in es ensures x.key != e.key {
        assert HasKey(d, x.key);
      }
      NewKeyComesAfter(es, d[k], e);
    }
  }

  lemma PutTakesIn(d: Dict, es: seq<Entry>, e: Entry)
    requires TakesIn(d, es)
    ensures TakesIn(Put(d, e.key, e.value), es + [e])
  {
    PutShape(d, e);
    var d' := Put(d, e.key, e.value);
    forall x | x in es + [e] ensures HasKey(d', x.key) {
      PutHasKeys(d, e, x.key);
    }
    forall k | 0 <= k < |d'| ensures IsLast(es + [e], d'[k]) {
      KeptIsLast(d, es, e, k);
    }
    forall k, l | 0 <= k < l < |d'| ensures ComesFirst(es + [e], d'[k].key, d'[l].key) {
      KeptInOrder(d, es, e, k, l);
    }
    hide IsLast, ComesFirst, Put, HasKey, DistinctKeys;
  }

  lemma NewestIsLast(es: seq<Entry>, e: Entry)
    ensures IsLast(es + [e], e)
  {
    assert (es + [e])[|es|] == e;
  }

  lemma {:induction false} ParsingMeans(entries: seq<string>, d: Dict, done: seq<string>)
    requires AllParse(done) && TakesIn(d, EntriesOf(done))
    ensures Meant(done + ItemsOf(entries), ParseEntries(entries, d))
    decreases |entries|
  {
    hide TakesIn, ParseEntry;
    var items := ItemsOf(entries);
    if entries == [] {
      assert done + items == done;
    } else {
      var item, rest := Strip(entries[0]), ItemsOf(entries[1..]);
      if item == "" {
        ParsingMeans(entries[1..], d, done);
        assert items == rest;
      } else {
        assert done + items == (done + [item]) + rest;
        match ParseEntry(item)
        case Err(e) =>
          assert (done + items)[|done|] == item && (done + items)[..|done|] == done;
        case Ok(entry) =>
          PutTakesIn(d, EntriesOf(done), entry);
          assert EntriesOf(done + [item]) == EntriesOf(done) + [entry];
          ParsingMeans(entries[1..], Put(d, entry.key, entry.value), done + [item]);
      }
    }
  }

  /** The items of a text: its entries between commas, trimmed, without the blank ones. */
  function ItemsIn(raw: Option<string>): seq<string> {
    if raw.None? then [] else ItemsOf(Split(raw.value, ','))
  }

  lemma ParsedMeans(raw: Option<string>)
    ensures Meant(ItemsIn(raw), Parsed(raw))
  {
    assert TakesIn([], EntriesOf([]));
    if raw.Some? && raw.value != "" {
      ParsingMeans(Split(raw.value, ','), [], []);
      assert [] + ItemsIn(raw) == ItemsIn(raw);
    } else if raw.Some? {
      assert Split("", ',') == [""] && ItemsOf([""]) == [];
    }
  }

  // ---------------------------------------------------------------- the parser

  method ParseNodePriorities(raw: Option<string>) returns (r: Result<Dict, ParseError>)
    ensures r == Parsed(raw) && Meant(ItemsIn(raw), r)
  {
    hide Meant, ItemsIn, Put, ParseInt, Strip;
    ParsedMeans(raw);
    if raw.None? || raw.value == "" {
      return Ok([]);
    }
    var entries := Split(raw.value, ',');
    var priorities: Dict := [];
    for n := 0 to |entries|
      invariant ParseEntries(entries[n..], priorities) == ParseEntries(entries, [])
    {
      assert entries[n..][1..] == entries[n + 1..];
      var item := Strip(entries[n]);
      if item == "" {
        continue;
      }
      var i := IndexOf(item, '=');
      var key := Strip(item[..i]);
      if i == |item| || key == "" {
        return Err(NeedsKeyValue);
      }
      var priority := ParseInt(item[i + 1..]);
      if priority.None? {
        return Err(NotAnInteger(key));
      }
      if priority.value < 0 {
        return Err(Negative(key));
      }
      priorities := Put(priorities, key, priority.value);
    }
    return Ok(priorities);
  }

  function Shown(n: int): string {
    if n < 0 then "-" + Numeral(-n) else Numeral(n)
  }

  function Item(e: Entry): string {
    e.key + "=" + Shown(e.value)
  }

  function Items(d: Dict): seq<string> {
    seq(|d|, i requires 0 <= i < |d| => Item(d[i]))
  }

  function FormatNodePriorities(d: Dict): string {
    Join(Items(d), ',')
  }

  // ---------------------------------------------------------------- round trips

  predicate GoodKey(key: string) {
    key != "" && Trimmed(key) && ',' !in key && '=' !in key
  }

  predicate WellFormed(d: Dict) {
    DistinctKeys(d) && forall e | e in d :: GoodKey(e.key) && e.value >= 0
  }

  lemma ItemParses(e: Entry)
    requires GoodKey(e.key) && e.value >= 0
    ensures ',' !in Item(e) && Item(e) != "" && Strip(Item(e)) == Item(e) && ParseEntry(Item(e)) == Ok(e)
  {
    hide ParseInt, Numeral, Strip;
    var item, value := Item(e), Numeral(e.value);
    assert item == e.key + ['='] + value;
    IndexAfter(e.key, '=', value);
    assert item[..|e.key|] == e.key && item[|e.key| + 1..] == value;
    assert value[|value| - 1] in value;
    assert item[0] == e.key[0] && item[|item| - 1] == value[|value| - 1];
    StripFacts(e.key);
    StripFacts(item);
    ParseNumeral(e.value);
  }

  lemma {:induction false} ItemsParse(d: Dict, n: nat)
    requires WellFormed(d) && n <= |d|
    ensures ParseEntries(Items(d)[n..], d[..n]) == Ok(d)
    decreases |d| - n
  {
    hide ParseEntry, Item, Strip, GoodKey, Put;
    if n == |d| {
      assert d[..n] == d;
    } else {
      assert d[n] in d;
      ItemParses(d[n]);
      assert Items(d)[n..][1..] == Items(d)[n + 1..];
      PutFresh(d[..n], d[n].key, d[n].value);
      assert d[..n] + [d[n]] == d[..n + 1];
      ItemsParse(d, n + 1);
    }
  }

  lemma FormatParses(d: Dict)
    requires WellFormed(d)
    ensures Parsed(Some(FormatNodePriorities(d))) == Ok(d)
  {
    if d != [] {
      forall p | p in Items(d) ensures ',' !in p && p != "" {
        var i :| 0 <= i < |d| && p == Item(d[i]);
        assert d[i] in d;
        ItemParses(d[i]);
      }
      SplitJoin(Items(d), ',');
      assert Items(d)[0] in Items(d);
      assert FormatNodePriorities(d) != "";
      ItemsParse(d, 0);
      assert Items(d)[0..] == Items(d) && d[..0] == [];
    }
  }

  lemma {:induction false} PutKeeps(d: Dict, key: string, value: int)
    requires WellFormed(d) && GoodKey(key) && value >= 0
    ensures WellFormed(Put(d, key, value))
    ensures forall e | e in Put(d, key, value) :: e.key == key || e in d
  {
    if d != [] && d[0].key != key {
      assert d == [d[0]] + d[1..];
      PutKeeps(d[1..], key, value);
    }
  }

  lemma ParsedEntryIsGood(item: string)
    requires ',' !in item && ParseEntry(item).Ok?
    ensures GoodKey(ParseEntry(item).value.key) && ParseEntry(item).value.value >= 0
  {
    var i := IndexOf(item, '=');
    StripFacts(item[..i]);
  }

  lemma {:induction false} ParsedIsWellFormed(entries: seq<string>, d: Dict)
    requires WellFormed(d) && forall s | s in entries :: ',' !in s
    ensures ParseEntries(entries, d).Ok? ==> WellFormed(ParseEntries(entries, d).value)
    decreases |entries|
  {
    if entries != [] {
      var item := Strip(entries[0]);
      StripFacts(entries[0]);
      if item == "" {
        ParsedIsWellFormed(entries[1..], d);
      } else if ParseEntry(item).Ok? {
        var entry := ParseEntry(item).value;
        ParsedEntryIsGood(item);
        PutKeeps(d, entry.key, entry.value);
        ParsedIsWellFormed(entries[1..], Put(d, entry.key, entry.value));
      }
    }
  }

  /**
    The printed form of a dictionary parses back to it exactly when its keys are non-empty, trimmed and free
    of commas and equals signs, and its values are not negative.
   */
  lemma FormatParsesExactly(d: Dict)
    requires DistinctKeys(d)
    ensures Parsed(Some(FormatNodePriorities(d))) == Ok(d) <==> WellFormed(d)
  {
    if WellFormed(d) {
      FormatParses(d);
    } else {
      ParsedIsWellFormed(Split(FormatNodePriorities(d), ','), []);
    }
  }

  /**
    Whatever text is accepted, blanks, repeated keys and inner spaces included: printing the result and parsing
    again gives the same result.
   */
  lemma ParseFormatParse(raw: Option<string>)
    requires Parsed(raw).Ok?
    ensures Parsed(Some(FormatNodePriorities(Parsed(raw).value))) == Parsed(raw)
  {
    if raw.Some? && raw.value != "" {
      ParsedIsWellFormed(Split(raw.value, ','), []);
    }
    FormatParses(Parsed(raw).value);
  }

  /** What the launcher leaves in the environment: nothing at all for an empty dictionary. */
  function Environment(d: Dict): Option<string> {
    if d == [] then None else Some(FormatNodePriorities(d))
  }

  /** The application reads from its environment the priorities the launcher was given. */
  lemma LauncherHandsOver(d: Dict)
    requires WellFormed(d)
    ensures Parsed(Environment(d)) == Ok(d)
  {
    FormatParses(d);
  }

  /** A printed dictionary: key, equals sign and decimal value, joined by commas without blanks. */
  lemma PrintedAs(d: Dict, e: Entry)
    ensures FormatNodePriorities([]) == ""
    ensures FormatNodePriorities([e]) ==
            e.key + "=" + (if e.value >= 0 then Numeral(e.value) else "-" + Numeral(0 - e.value))
    ensures d != [] ==> FormatNodePriorities([e] + d) == FormatNodePriorities([e]) + "," + FormatNodePriorities(d)
  {
    hide Numeral;
    assert Items([e]) == [Item(e)];
    assert Items([e] + d) == [Item(e)] + Items(d);
    assert ([Item(e)] + Items(d))[1..] == Items(d);
  }
}
