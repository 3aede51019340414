/**
 * The synchronization database file: one "<etag> <hash>" record per line
 * (get_syncdb and save_syncdb in contrib/caldav/calcurse-caldav.py).
 */
module SyncDbFormat {
  import opened Wrappers
  import opened Text

  type ETag = string
  type Hash = string

  /**
   * The lines f.readlines() yields, each already without its '\n'. The
   * script applies rstrip() to every line, and '\n' is whitespace, so
   * dropping it here changes nothing downstream.
   */
  function Lines(text: string): (r: seq<string>)
    ensures forall i | 0 <= i < |r| :: '\n' !in r[i]
    ensures |r| == 0 <==> text == ""
  {
    var parts := Split(text, '\n');
    if parts[|parts| - 1] == "" then parts[..|parts| - 1]
    else parts
  }

  const NotEnoughValues := "ValueError: not enough values to unpack (expected 2)"
  const TooManyValues := "ValueError: too many values to unpack (expected 2)"

  /** `etag, objhash = line.rstrip().split(' ')`: exactly two fields, or a ValueError. */
  function ParseLine(line: string): (r: Result<(ETag, Hash)>)
    ensures r.Success? <==> |Split(RStrip(line), ' ')| == 2
    ensures r.Success? ==>
      && RStrip(line) == r.value.0 + " " + r.value.1
      && ' ' !in r.value.0 && ' ' !in r.value.1
  {
    var fields := Split(RStrip(line), ' ');
    if |fields| == 2 then
      assert Join(fields, ' ') == fields[0] + " " + fields[1];
      Success((fields[0], fields[1]))
    else if |fields| < 2 then Failure(NotEnoughValues)
    else Failure(TooManyValues)
  }

  /** The loop of get_syncdb from a given line on, with `acc` built so far; a later line wins. */
  function ParseFrom(lines: seq<string>, acc: map<ETag, Hash>): (r: Result<map<ETag, Hash>>)
    ensures r.Success? <==> forall i | 0 <= i < |lines| :: ParseLine(lines[i]).Success?
    ensures r.Success? ==> acc.Keys <= r.value.Keys
  {
    if lines == [] then Success(acc)
    else
      match ParseLine(lines[0])
      case Failure(e) => Failure(e)
      case Success(entry) =>
        var r := ParseFrom(lines[1..], acc[entry.0 := entry.1]);
        assert forall i | 1 <= i < |lines| :: lines[1..][i - 1] == lines[i];
        r
  }

  /**
   * get_syncdb: a file that does not exist (None) loads as the empty
   * database; otherwise every line must parse.
   */
  function Load(file: Option<string>): (r: Result<map<ETag, Hash>>)
    ensures file.None? ==> r == Success(map[])
    ensures file.Some? ==>
      (r.Success? <==> forall i | 0 <= i < |Lines(file.value)| :: ParseLine(Lines(file.value)[i]).Success?)
  {
    if file.None? then Success(map[]) else ParseFrom(Lines(file.value), map[])
  }

  /** get_syncdb, line by line. */
  method GetSyncDb(file: Option<string>) returns (r: Result<map<ETag, Hash>>)
    ensures r == Load(file)
  {
    if file.None? {
      return Success(map[]);
    }
    var lines := Lines(file.value);
    var db: map<ETag, Hash> := map[];
    var i := 0;
    while i < |lines|
      invariant 0 <= i <= |lines|
      invariant ParseFrom(lines[i..], db) == Load(file)
    {
      assert lines[i..][1..] == lines[i + 1..];
      var entry := ParseLine(lines[i]);
      if entry.Failure? {
        return Failure(entry.error);
      }
      db := db[entry.value.0 := entry.value.1];
      i := i + 1;
    }
    return Success(db);
  }

  /** The record save_syncdb prints for one entry, without its newline. */
  function Record(db: map<ETag, Hash>, etag: ETag): string
    requires etag in db
  {
    etag + " " + db[etag]
  }

  /** What save_syncdb writes when it visits the entries in `order`. */
  function Serialize(db: map<ETag, Hash>, order: seq<ETag>): (r: string)
    requires forall i | 0 <= i < |order| :: order[i] in db
    ensures r == "" <==> order == []
    ensures r != "" ==> r[|r| - 1] == '\n'
  {
    if order == [] then "" else Record(db, order[0]) + "\n" + Serialize(db, order[1..])
  }

  /** `order` lists every key of `db` exactly once (the dict's iteration order). */
  ghost predicate Enumerates(order: seq<ETag>, db: map<ETag, Hash>) {
    && (forall i, j | 0 <= i < j < |order| :: order[i] != order[j])
    && (forall i | 0 <= i < |order| :: order[i] in db)
    && (forall e | e in db :: e in order)
  }

  /** Fields that survive the save/load cycle: no field separator, no line break, and the hash is not lost to rstrip(). */
  predicate Storable(db: map<ETag, Hash>) {
    forall e | e in db ::
      && ' ' !in e && '\n' !in e
      && ' ' !in db[e] && '\n' !in db[e]
      && db[e] != "" && !IsSpace(db[e][|db[e]| - 1])
  }

  lemma {:induction false} SerializeAppend(db: map<ETag, Hash>, order: seq<ETag>, e: ETag)
    requires forall i | 0 <= i < |order| :: order[i] in db
    requires e in db
    ensures Serialize(db, order + [e]) == Serialize(db, order) + Record(db, e) + "\n"
  {
    if order != [] {
      assert (order + [e])[1..] == order[1..] + [e];
      SerializeAppend(db, order[1..], e);
    }
  }

  /** save_syncdb, entry by entry, in the dict's iteration order. */
  method SaveText(db: map<ETag, Hash>) returns (text: string, ghost order: seq<ETag>)
    ensures Enumerates(order, db)
    ensures text == Serialize(db, order)
  {
    text, order := "", [];
    var rest := db.Keys;
    while rest != {}
      invariant rest <= db.Keys
      invariant forall i, j | 0 <= i < j < |order| :: order[i] != order[j]
      invariant forall i | 0 <= i < |order| :: order[i] in db && order[i] !in rest
      invariant forall e | e in db && e !in rest :: e in order
      invariant text == Serialize(db, order)
      decreases rest
    {
      var e :| e in rest;
      SerializeAppend(db, order, e);
      text := text + Record(db, e) + "\n";
      order := order + [e];
      rest := rest - {e};
    }
  }

  /** The records of the entries in `order`, one per line. */
  function Records(db: map<ETag, Hash>, order: seq<ETag>): (r: seq<string>)
    requires forall i | 0 <= i < |order| :: order[i] in db
    ensures |r| == |order|
  {
    if order == [] then [] else [Record(db, order[0])] + Records(db, order[1..])
  }

  /** The entries of `db` whose ETag is listed in `order`. */
  function Listed(db: map<ETag, Hash>, order: seq<ETag>): map<ETag, Hash> {
    map e | e in db && e in order :: db[e]
  }

  lemma {:induction false} SplitSerialized(db: map<ETag, Hash>, order: seq<ETag>)
    requires Storable(db)
    requires forall i | 0 <= i < |order| :: order[i] in db
    ensures Split(Serialize(db, order), '\n') == Records(db, order) + [""]
  {
    if order != [] {
      SplitSerialized(db, order[1..]);
      SplitAtFirst(Record(db, order[0]), Serialize(db, order[1..]), '\n');
      assert Record(db, order[0]) + "\n" + Serialize(db, order[1..])
          == Record(db, order[0]) + ['\n'] + Serialize(db, order[1..]);
    }
  }

  lemma ParseRecord(db: map<ETag, Hash>, e: ETag)
    requires Storable(db) && e in db
    ensures ParseLine(Record(db, e)) == Success((e, db[e]))
  {
    var h := db[e];
    assert RStrip(Record(db, e)) == Record(db, e);
    SplitAtFirst(e, h, ' ');
    SplitWithoutSep(h, ' ');
    assert Record(db, e) == e + [' '] + h;
  }

  lemma ListedStep(db: map<ETag, Hash>, order: seq<ETag>, acc: map<ETag, Hash>)
    requires order != [] && order[0] in db
    ensures acc[order[0] := db[order[0]]] + Listed(db, order[1..]) == acc + Listed(db, order)
  {
    var l, r := acc[order[0] := db[order[0]]] + Listed(db, order[1..]), acc + Listed(db, order);
    assert forall e :: e in order <==> e == order[0] || e in order[1..];
    assert l.Keys == r.Keys;
  }

  lemma {:induction false} ParseRecords(db: map<ETag, Hash>, order: seq<ETag>, acc: map<ETag, Hash>)
    requires Storable(db)
    requires forall i | 0 <= i < |order| :: order[i] in db
    ensures ParseFrom(Records(db, order), acc) == Success(acc + Listed(db, order))
  {
    if order != [] {
      ParseRecord(db, order[0]);
      ParseRecords(db, order[1..], acc[order[0] := db[order[0]]]);
      ListedStep(db, order, acc);
    } else {
      assert Listed(db, order) == map[];
      assert acc + map[] == acc;
    }
  }

  lemma LinesOfSerialized(db: map<ETag, Hash>, order: seq<ETag>)
    requires Storable(db)
    requires forall i | 0 <= i < |order| :: order[i] in db
    ensures Lines(Serialize(db, order)) == Records(db, order)
  {
    SplitSerialized(db, order);
    var parts := Split(Serialize(db, order), '\n');
    assert parts[..|parts| - 1] == Records(db, order);
  }

  lemma ListedAll(db: map<ETag, Hash>, order: seq<ETag>)
    requires Enumerates(order, db)
    ensures map[] + Listed(db, order) == db
  {
    assert Listed(db, order).Keys == db.Keys;
  }

  /** Saving a database of storable entries and loading the file gives the same database back. */
  lemma RoundTrip(db: map<ETag, Hash>, order: seq<ETag>)
    requires Storable(db)
    requires Enumerates(order, db)
    ensures Load(Some(Serialize(db, order))) == Success(db)
  {
    LinesOfSerialized(db, order);
    ParseRecords(db, order, map[]);
    ListedAll(db, order);
  }

  /** An empty hash is lost on the way: its record "e " is cut to "e" and no longer has two fields. */
  lemma EmptyHashIsNotStorable()
    ensures Load(Some(Serialize(map["e" := ""], ["e"]))).Failure?
  {
    var db := map["e" := ""];
    assert Serialize(db, ["e"]) == "e \n";
    assert Split("e \n", '\n') == ["e ", ""] by {
      SplitAtFirst("e ", "", '\n');
      assert "e \n" == "e " + ['\n'] + "";
    }
    assert Lines("e \n") == ["e "];
    assert RStrip("e ") == "e";
    SplitWithoutSep("e", ' ');
  }
}
