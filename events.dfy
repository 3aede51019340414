/**
 * The event list of calcurse (src/event.c): events ordered by day and then
 * by message, the list kept sorted as events are added, pasted and deleted,
 * and the checks and the filter decision of loading one event.
 */
module Events {
  import opened Wrappers

  const NullPointer := "null pointer"
  const NoSuchAppointment := "no such appointment"
  const IllegalDate := "illegal date in event"
  const DescriptionError := "error in appointment description"
  const DateError := "date error in event\n"

  /**
   * The sign of strcmp: the first differing character decides, and a string
   * that is a proper prefix of another comes first.
   */
  function StrCmp(a: string, b: string): (r: int)
    ensures -1 <= r <= 1
    ensures r == 0 <==> a == b
  {
    if a == [] then (if b == [] then 0 else -1)
    else if b == [] then 1
    else if a[0] < b[0] then -1
    else if a[0] > b[0] then 1
    else
      var r := StrCmp(a[1..], b[1..]);
      assert a == [a[0]] + a[1..] && b == [b[0]] + b[1..];
      r
  }

  /** Swapping the strings flips the sign. */
  lemma {:induction false} StrCmpFlip(a: string, b: string)
    ensures StrCmp(b, a) == -StrCmp(a, b)
  {
    if a != [] && b != [] && a[0] == b[0] {
      StrCmpFlip(a[1..], b[1..]);
    }
  }

  /** The order strcmp induces is transitive. */
  lemma {:induction false} StrCmpTrans(a: string, b: string, c: string)
    requires StrCmp(a, b) <= 0 && StrCmp(b, c) <= 0
    ensures StrCmp(a, c) <= 0
  {
    if a != [] && b != [] && c != [] && a[0] == b[0] && b[0] == c[0] {
      StrCmpTrans(a[1..], b[1..], c[1..]);
    }
  }

  /** What event_cmp looks at: the day, then the message. */
  datatype Key = Key(day: int, mesg: string)

  /** event_cmp: the day decides first, and equal days fall back on strcmp of the messages. */
  function KeyCmp(a: Key, b: Key): (r: int)
    ensures -1 <= r <= 1
    ensures r == 0 <==> a == b
    ensures a.day < b.day ==> r == -1
    ensures a.day > b.day ==> r == 1
  {
    if a.day < b.day then -1
    else if a.day > b.day then 1
    else StrCmp(a.mesg, b.mesg)
  }

  /** Swapping the events flips the sign of event_cmp. */
  lemma KeyCmpFlip(a: Key, b: Key)
    ensures KeyCmp(b, a) == -KeyCmp(a, b)
  {
    StrCmpFlip(a.mesg, b.mesg);
  }

  /** event_cmp orders events transitively. */
  lemma KeyCmpTrans(a: Key, b: Key, c: Key)
    requires KeyCmp(a, b) <= 0 && KeyCmp(b, c) <= 0
    ensures KeyCmp(a, c) <= 0
  {
    if a.day == b.day && b.day == c.day {
      StrCmpTrans(a.mesg, b.mesg, c.mesg);
    }
  }

  /** struct event: a note is either absent (NULL) or a string. */
  class Event {
    var id: int
    var day: int
    var mesg: string
    var note: Option<string>

    constructor (mesg: string, note: Option<string>, day: int, id: int)
      ensures this.mesg == mesg && this.note == note && this.day == day && this.id == id
    {
      this.mesg := mesg;
      this.note := note;
      this.day := day;
      this.id := id;
    }

    function SortKey(): Key
      reads this
    {
      Key(day, mesg)
    }
  }

  /**
   * event_dup: a new event with the same id, day, message and note; a null
   * input ends the program with "null pointer".
   */
  method Dup(e: Event?) returns (r: Result<Event>)
    ensures e == null ==> r == Failure(NullPointer)
    ensures e != null ==> r.Success? && fresh(r.value)
    ensures e != null ==> r.value.id == e.id && r.value.day == e.day && r.value.mesg == e.mesg && r.value.note == e.note
  {
    if e == null {
      return Failure(NullPointer);
    }
    var ev := new Event(e.mesg, e.note, e.day, e.id);
    return Success(ev);
  }

  /** The sort keys of a list of events, in list order. */
  function KeysOf(s: seq<Event>): (ks: seq<Key>)
    reads s
    ensures |ks| == |s|
  {
    if s == [] then [] else KeysOf(s[..|s| - 1]) + [s[|s| - 1].SortKey()]
  }

  /** Each key is the key of the event at the same position. */
  lemma {:induction false} KeyAt(s: seq<Event>, i: nat)
    requires i < |s|
    ensures KeysOf(s)[i] == s[i].SortKey()
  {
    if i < |s| - 1 {
      KeyAt(s[..|s| - 1], i);
    }
  }

  ghost predicate Sorted(ks: seq<Key>) {
    forall i, j | 0 <= i < j < |ks| :: KeyCmp(ks[i], ks[j]) <= 0
  }

  ghost predicate Distinct<T>(s: seq<T>) {
    forall i, j | 0 <= i < j < |s| :: s[i] != s[j]
  }

  /**
   * Where a sorted insertion puts a new key: before the first element that
   * compares greater, so after every element that compares less or equal.
   */
  function InsertPos(ks: seq<Key>, k: Key): (p: nat)
    ensures p <= |ks|
    ensures forall i | 0 <= i < p :: KeyCmp(ks[i], k) <= 0
    ensures p < |ks| ==> KeyCmp(ks[p], k) > 0
  {
    if ks == [] then 0
    else if KeyCmp(ks[0], k) > 0 then 0
    else 1 + InsertPos(ks[1..], k)
  }

  /** The position of a sorted insertion is the only one that satisfies its two conditions. */
  lemma InsertPosIs(ks: seq<Key>, k: Key, p: nat)
    requires p <= |ks|
    requires forall i | 0 <= i < p :: KeyCmp(ks[i], k) <= 0
    requires p < |ks| ==> KeyCmp(ks[p], k) > 0
    ensures p == InsertPos(ks, k)
  {
  }

  /** In a sorted list, a key below the one at position `p` is below every key from `p` on. */
  lemma BelowRest(ks: seq<Key>, k: Key, p: nat, j: nat)
    requires Sorted(ks)
    requires p <= j < |ks| && KeyCmp(ks[p], k) > 0
    ensures KeyCmp(k, ks[j]) <= 0
  {
    KeyCmpFlip(ks[p], k);
    if j > p {
      KeyCmpTrans(k, ks[p], ks[j]);
    }
  }

  /** A sorted insertion keeps a sorted list sorted. */
  lemma InsertKeepsSorted(ks: seq<Key>, k: Key)
    requires Sorted(ks)
    ensures var p := InsertPos(ks, k); Sorted(ks[..p] + [k] + ks[p..])
  {
    var p := InsertPos(ks, k);
    forall j | p <= j < |ks| ensures KeyCmp(k, ks[j]) <= 0 {
      BelowRest(ks, k, p, j);
    }
    SortedSplice(ks, k, p);
  }

  /** A key placed between the keys below it and the keys above it keeps a sorted list sorted. */
  lemma SortedSplice(ks: seq<Key>, k: Key, p: nat)
    requires Sorted(ks) && p <= |ks|
    requires forall i | 0 <= i < p :: KeyCmp(ks[i], k) <= 0
    requires forall j | p <= j < |ks| :: KeyCmp(k, ks[j]) <= 0
    ensures Sorted(ks[..p] + [k] + ks[p..])
  {
    var r := ks[..p] + [k] + ks[p..];
    forall i, j | 0 <= i < j < |r| ensures KeyCmp(r[i], r[j]) <= 0 {
      var i' := if i < p then i else i - 1;
      var j' := if j < p then j else j - 1;
      if i == p {
        assert r[i] == k && r[j] == ks[j'];
      } else if j == p {
        assert r[i] == ks[i'] && r[j] == k;
      } else {
        assert r[i] == ks[i'] && r[j] == ks[j'];
      }
    }
  }

  /** Dropping one element keeps a sorted list sorted. */
  lemma RemoveKeepsSorted(ks: seq<Key>, i: nat)
    requires Sorted(ks) && i < |ks|
    ensures Sorted(ks[..i] + ks[i + 1..])
  {
    var r := ks[..i] + ks[i + 1..];
    forall a, b | 0 <= a < b < |r| ensures KeyCmp(r[a], r[b]) <= 0 {
      var a' := if a < i then a else a + 1;
      var b' := if b < i then b else b + 1;
      assert r[a] == ks[a'] && r[b] == ks[b'];
    }
  }

  /** The first position of `x` in `s`: LLIST_FIND_FIRST by identity. */
  function IndexOf<T(==)>(s: seq<T>, x: T): (i: nat)
    requires x in s
    ensures i < |s| && s[i] == x && x !in s[..i]
  {
    if s[0] == x then 0
    else
      var i := 1 + IndexOf(s[1..], x);
      assert s[..i] == [s[0]] + s[1..][..i - 1];
      i
  }

  /** The list after a sorted insertion of `ev`. */
  ghost function Inserted(s: seq<Event>, ev: Event): seq<Event>
    reads s, ev
  {
    var p := InsertPos(KeysOf(s), ev.SortKey());
    s[..p] + [ev] + s[p..]
  }

  /** The keys of two lists one after the other. */
  lemma {:induction false} KeysOfAppend(a: seq<Event>, b: seq<Event>)
    ensures KeysOf(a + b) == KeysOf(a) + KeysOf(b)
  {
    if b != [] {
      var n := |b| - 1;
      assert (a + b)[..|a + b| - 1] == a + b[..n];
      assert (a + b)[|a + b| - 1] == b[n];
      KeysOfAppend(a, b[..n]);
    } else {
      assert a + b == a;
    }
  }

  /** The keys of a list cut in two are the keys of the two parts. */
  lemma KeysOfSplit(s: seq<Event>, p: nat)
    requires p <= |s|
    ensures KeysOf(s)[..p] == KeysOf(s[..p]) && KeysOf(s)[p..] == KeysOf(s[p..])
  {
    assert s == s[..p] + s[p..];
    KeysOfAppend(s[..p], s[p..]);
  }

  /** The keys of a list with one event inserted are the keys with its key inserted. */
  lemma KeysOfInsert(s: seq<Event>, ev: Event, p: nat)
    requires p <= |s|
    ensures KeysOf(s[..p] + [ev] + s[p..]) == KeysOf(s)[..p] + [ev.SortKey()] + KeysOf(s)[p..]
  {
    KeysOfSplit(s, p);
    KeysOfAppend(s[..p], [ev]);
    KeysOfAppend(s[..p] + [ev], s[p..]);
    assert KeysOf([ev]) == [ev.SortKey()] by {
      assert [ev][..0] == [];
    }
  }

  /** The keys of a list with one event removed are the keys with its key removed. */
  lemma KeysOfRemove(s: seq<Event>, i: nat)
    requires i < |s|
    ensures KeysOf(s[..i] + s[i + 1..]) == KeysOf(s)[..i] + KeysOf(s)[i + 1..]
  {
    KeysOfSplit(s, i);
    KeysOfSplit(s, i + 1);
    KeysOfAppend(s[..i], s[i + 1..]);
  }

  /** Inserting an element that is not in a list of distinct elements keeps them distinct. */
  lemma DistinctInsert<T>(s: seq<T>, x: T, p: nat)
    requires Distinct(s) && x !in s && p <= |s|
    ensures Distinct(s[..p] + [x] + s[p..]) && multiset(s[..p] + [x] + s[p..]) == multiset(s) + multiset{x}
  {
    var r := s[..p] + [x] + s[p..];
    forall i, j | 0 <= i < j < |r| ensures r[i] != r[j] {
      var i' := if i < p then i else i - 1;
      var j' := if j < p then j else j - 1;
      if i != p && j != p {
        assert r[i] == s[i'] && r[j] == s[j'];
      } else if i == p {
        assert r[i] == x && r[j] == s[j'];
      } else {
        assert r[i] == s[i'] && r[j] == x;
      }
    }
    assert s == s[..p] + s[p..];
  }

  /** Removing an element of a list of distinct elements keeps them distinct and removes it. */
  lemma DistinctRemove<T>(s: seq<T>, i: nat)
    requires Distinct(s) && i < |s|
    ensures var r := s[..i] + s[i + 1..];
      Distinct(r) && s[i] !in r && multiset(r) == multiset(s) - multiset{s[i]}
  {
    var r := s[..i] + s[i + 1..];
    forall a | 0 <= a < |r| ensures r[a] != s[i] {
      if a < i { assert r[a] == s[a]; } else { assert r[a] == s[a + 1]; }
    }
    forall a, b | 0 <= a < b < |r| ensures r[a] != r[b] {
      var a' := if a < i then a else a + 1;
      var b' := if b < i then b else b + 1;
      assert r[a] == s[a'] && r[b] == s[b'];
    }
    assert s == s[..i] + [s[i]] + s[i + 1..];
  }

  /** Inserting an event that is not in a sorted list of distinct events keeps it so. */
  lemma InsertedValid(s: seq<Event>, ev: Event)
    requires Sorted(KeysOf(s)) && Distinct(s) && ev !in s
    ensures var r := Inserted(s, ev); Sorted(KeysOf(r)) && Distinct(r) && multiset(r) == multiset(s) + multiset{ev}
  {
    var p := InsertPos(KeysOf(s), ev.SortKey());
    KeysOfInsert(s, ev, p);
    InsertKeepsSorted(KeysOf(s), ev.SortKey());
    DistinctInsert(s, ev, p);
  }

  /** Removing one event keeps a list sorted and distinct, and removes that event. */
  lemma RemovedValid(s: seq<Event>, i: nat)
    requires Sorted(KeysOf(s)) && Distinct(s) && i < |s|
    ensures var r := s[..i] + s[i + 1..];
      Sorted(KeysOf(r)) && Distinct(r) && s[i] !in r && multiset(r) == multiset(s) - multiset{s[i]}
  {
    KeysOfRemove(s, i);
    RemoveKeepsSorted(KeysOf(s), i);
    DistinctRemove(s, i);
  }

  /** Removing an event that was just inserted into a list without it gives the list back. */
  lemma InsertThenRemove(s: seq<Event>, ev: Event, r: seq<Event>)
    requires ev !in s && r == Inserted(s, ev)
    ensures var i := IndexOf(r, ev); r[..i] + r[i + 1..] == s
  {
    var p := InsertPos(KeysOf(s), ev.SortKey());
    assert r[..p] == s[..p];
    InsertedAt(r, ev, p);
    assert r[p + 1..] == s[p..];
    assert s == s[..p] + s[p..];
  }

  lemma InsertedAt(r: seq<Event>, ev: Event, p: nat)
    requires p < |r| && r[p] == ev && ev !in r[..p]
    ensures IndexOf(r, ev) == p
  {
  }

  /**
   * struct item_filter as event_scan reads it; -1 leaves a bound unset.
   * `selectsEvents` is the event bit of the type mask, `regex` and `hash`
   * say whether a pattern is set.
   */
  datatype ItemFilter = ItemFilter(
    selectsEvents: bool, regex: bool,
    startFrom: int, startTo: int, endFrom: int, endTo: int,
    hash: bool, invert: bool)

  /**
   * The first part of the condition event_scan computes: set when the event
   * fails the type, the pattern or one of the four bounds on its start and
   * end. `regexMatches` is the answer of regexec on the description.
   */
  function Excluded(f: ItemFilter, regexMatches: bool, tstart: int, tend: int): (ex: bool)
    ensures !ex <==>
      && f.selectsEvents && (f.regex ==> regexMatches)
      && (f.startFrom == -1 || f.startFrom <= tstart) && (f.startTo == -1 || tstart <= f.startTo)
      && (f.endFrom == -1 || f.endFrom <= tend) && (f.endTo == -1 || tend <= f.endTo)
  {
    || !f.selectsEvents
    || (f.regex && !regexMatches)
    || (f.startFrom != -1 && tstart < f.startFrom)
    || (f.startTo != -1 && tstart > f.startTo)
    || (f.endFrom != -1 && tend < f.endFrom)
    || (f.endTo != -1 && tend > f.endTo)
  }

  /**
   * The whole condition: the first part, or a hash pattern that the event's
   * hash does not match (`hashMatches` is the answer of hash_matches).
   */
  function Condition(f: ItemFilter, regexMatches: bool, hashMatches: bool, tstart: int, tend: int): (cond: bool)
    ensures Excluded(f, regexMatches, tstart, tend) ==> cond
    ensures !f.hash ==> cond == Excluded(f, regexMatches, tstart, tend)
    ensures f.hash && !hashMatches ==> cond
    ensures f.hash && hashMatches ==> cond == Excluded(f, regexMatches, tstart, tend)
  {
    Excluded(f, regexMatches, tstart, tend) || (f.hash && !hashMatches)
  }

  /** The decision of event_scan: the event is kept exactly when the condition equals `invert`. */
  function Keeps(f: ItemFilter, regexMatches: bool, hashMatches: bool, tstart: int, tend: int): (keep: bool)
    ensures keep <==> (Condition(f, regexMatches, hashMatches, tstart, tend) == f.invert)
  {
    var cond := Condition(f, regexMatches, hashMatches, tstart, tend);
    !((!f.invert && cond) || (f.invert && !cond))
  }

  /** Whether event_scan keeps an event: always without a filter, else as the filter decides. */
  predicate Kept(filter: Option<ItemFilter>, regexMatches: bool, hashMatches: bool, tstart: int, tend: int) {
    filter.None? || Keeps(filter.value, regexMatches, hashMatches, tstart, tend)
  }

  /** Inverting a filter keeps exactly the events the filter rejects. */
  lemma InvertFlips(f: ItemFilter, regexMatches: bool, hashMatches: bool, tstart: int, tend: int)
    ensures Keeps(f.(invert := !f.invert), regexMatches, hashMatches, tstart, tend) == !Keeps(f, regexMatches, hashMatches, tstart, tend)
  {
  }

  /** A filter that selects events and sets no pattern and no bound keeps every event, unless inverted. */
  lemma OpenFilterKeeps(f: ItemFilter, regexMatches: bool, hashMatches: bool, tstart: int, tend: int)
    requires f.selectsEvents && !f.regex && !f.hash
    requires f.startFrom == -1 && f.startTo == -1 && f.endFrom == -1 && f.endTo == -1
    ensures Keeps(f, regexMatches, hashMatches, tstart, tend) == !f.invert
  {
  }

  /** The description as event_scan keeps it: the line up to its first newline. */
  function CutAtNewline(s: string): (r: string)
    ensures r <= s && '\n' !in r
    ensures |r| < |s| ==> s[|r|] == '\n'
  {
    if s == [] || s[0] == '\n' then []
    else
      var r := [s[0]] + CutAtNewline(s[1..]);
      assert s == [s[0]] + s[1..];
      r
  }

  /** Cutting is idempotent: a cut line has no newline left to cut at. */
  lemma {:induction false} CutAtNewlineIdempotent(s: string)
    ensures CutAtNewline(CutAtNewline(s)) == CutAtNewline(s)
  {
    if s != [] && s[0] != '\n' {
      CutAtNewlineIdempotent(s[1..]);
    }
  }

  /** `s` is `s0` with the event `ev`, which holds the given fields, inserted in order. */
  ghost predicate Added(s0: seq<Event>, s: seq<Event>, ev: Event?, mesg: string, note: Option<string>, day: int, id: int)
    reads s0, ev
  {
    ev != null && ev.mesg == mesg && ev.note == note && ev.day == day && ev.id == id && s == Inserted(s0, ev)
  }

  /** eventlist: the events of the calendar, sorted by event_cmp. */
  class EventList {
    var items: seq<Event>

    ghost predicate Valid()
      reads this, items
    {
      Sorted(KeysOf(items)) && Distinct(items)
    }

    /** event_llist_init: an empty list. */
    constructor ()
      ensures items == [] && Valid()
    {
      items := [];
    }

    /** LLIST_ADD_SORTED with event_cmp: `ev` goes before the first event that compares greater. */
    method InsertSorted(ev: Event)
      requires Valid() && ev !in items
      modifies this`items
      ensures items == Inserted(old(items), ev)
      ensures Valid() && multiset(items) == multiset(old(items)) + multiset{ev}
    {
      var i := InsertPos(KeysOf(items), ev.SortKey());
      InsertedValid(items, ev);
      items := items[..i] + [ev] + items[i..];
    }

    /** event_new: a new event with these fields, inserted in order. */
    method NewEvent(mesg: string, note: Option<string>, day: int, id: int) returns (ev: Event)
      requires Valid()
      modifies this`items
      ensures fresh(ev) && Added(old(items), items, ev, mesg, note, day, id)
      ensures Valid() && multiset(items) == multiset(old(items)) + multiset{ev}
    {
      ev := new Event(mesg, note, day, id);
      InsertSorted(ev);
    }

    /**
     * event_delete: drops the first item holding `ev`; an event not in the
     * list ends the program with "no such appointment".
     */
    method Delete(ev: Event) returns (o: Outcome)
      requires Valid()
      modifies this`items
      ensures Valid()
      ensures ev !in old(items) ==> o == Fail(NoSuchAppointment) && items == old(items)
      ensures ev in old(items) ==>
        var i := IndexOf(old(items), ev);
        o == Pass && items == old(items)[..i] + old(items)[i + 1..] && ev !in items
    {
      if ev !in items {
        return Fail(NoSuchAppointment);
      }
      var i := IndexOf(items, ev);
      RemovedValid(items, i);
      items := items[..i] + items[i + 1..];
      o := Pass;
    }

    /** event_paste_item: an event that was cut from the list returns on the given day, in order. */
    method Paste(ev: Event, date: int)
      requires Valid() && ev !in items
      modifies this`items, ev`day
      ensures ev.day == date && items == Inserted(old(items), ev)
      ensures Valid() && multiset(items) == multiset(old(items)) + multiset{ev}
    {
      ev.day := date;
      InsertSorted(ev);
    }

    /**
     * event_scan: `dateValid` and `timeValid` are the answers of check_date
     * and check_time, `line` what fgets read (None at the end of the file),
     * `tstart` what mktime made of the day (-1 for an error) and `tend` the
     * end of that day. The result is the error message, or None; `ev` is the
     * event the list kept, if any.
     */
    method Scan(dateValid: bool, timeValid: bool, line: Option<string>, tstart: int, tend: int,
                id: int, note: Option<string>, filter: Option<ItemFilter>, regexMatches: bool, hashMatches: bool)
      returns (err: Option<string>, ghost ev: Event?)
      requires Valid()
      modifies this`items
      ensures Valid()
      ensures !(dateValid && timeValid) ==> err == Some(IllegalDate) && items == old(items)
      ensures dateValid && timeValid && line.None? ==> err == Some(DescriptionError) && items == old(items)
      ensures dateValid && timeValid && line.Some? && tstart == -1 ==> err == Some(DateError) && items == old(items)
      ensures dateValid && timeValid && line.Some? && tstart != -1 ==>
        && err.None?
        && var keep := Kept(filter, regexMatches, hashMatches, tstart, tend);
        && (keep ==> fresh(ev) && Added(old(items), items, ev, CutAtNewline(line.value), note, tstart, id))
        && (!keep ==> items == old(items))
    {
      if !(dateValid && timeValid) {
        return Some(IllegalDate), null;
      }
      if line.None? {
        return Some(DescriptionError), null;
      }
      var buf := CutAtNewline(line.value);
      if tstart == -1 {
        return Some(DateError), null;
      }
      err := None;
      ev := Load(buf, tstart, tend, id, note, filter, regexMatches, hashMatches);
    }

    /**
     * The end of event_scan: the filter decides whether the event described
     * by `mesg` joins the list.
     */
    method Load(mesg: string, tstart: int, tend: int, id: int, note: Option<string>,
                filter: Option<ItemFilter>, regexMatches: bool, hashMatches: bool) returns (ghost ev: Event?)
      requires Valid()
      modifies this`items
      ensures Valid()
      ensures Kept(filter, regexMatches, hashMatches, tstart, tend) ==> fresh(ev) && Added(old(items), items, ev, mesg, note, tstart, id)
      ensures !Kept(filter, regexMatches, hashMatches, tstart, tend) ==> items == old(items)
    {
      if filter.Some? {
        var f := filter.value;
        var cond := Excluded(f, regexMatches, tstart, tend);
        if f.hash {
          ev := LoadHashed(mesg, tstart, id, note, f.invert, cond, hashMatches);
          return;
        }
        if (!f.invert && cond) || (f.invert && !cond) {
          return null;
        }
      }
      var e := NewEvent(mesg, note, tstart, id);
      return e;
    }

    /**
     * event_scan with a hash pattern: the event is inserted first, so that
     * its hash can be taken, and deleted again if the filter rejects it.
     * `cond` is the rest of the condition.
     */
    method LoadHashed(mesg: string, tstart: int, id: int, note: Option<string>,
                      invert: bool, cond: bool, hashMatches: bool) returns (ghost ev: Event?)
      requires Valid()
      modifies this`items
      ensures Valid()
      ensures (cond || !hashMatches) == invert ==> fresh(ev) && Added(old(items), items, ev, mesg, note, tstart, id)
      ensures (cond || !hashMatches) != invert ==> items == old(items)
    {
      ghost var s0 := items;
      var e := NewEvent(mesg, note, tstart, id);
      InsertThenRemove(s0, e, items);
      var c := cond || !hashMatches;
      if (!invert && c) || (invert && !c) {
        var o := Delete(e);
        return null;
      }
      return e;
    }
  }
}
