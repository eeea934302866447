/** A concrete runtime that meets every law the codec asks of its libraries, so that the laws
    can be met. The text form is a prefix code rather than JSON's own grammar. */
module Witness {
  import opened Core
  import opened Format
  import opened Model
  import opened Vineyard
  import opened Pipelines
  import Stream

  function PrintNat(n: nat): seq<byte> {
    if n == 0 then [0] else [1] + PrintNat(n - 1)
  }

  function PrintString(s: string): seq<byte> {
    if s == "" then [0] else [1] + PrintNat(s[0] as nat) + PrintString(s[1..])
  }

  function PrintScalar(x: Scalar): seq<byte> {
    match x
    case Null => [2]
    case Bool(b) => if b then [3] else [4]
    case Int(n) => if n >= 0 then [5] + PrintNat(n) else [6] + PrintNat(-n)
    case Float(text) => [7] + PrintString(text)
    case Str(s) => [8] + PrintString(s)
  }

  function Print(j: Json): seq<byte>
    decreases j, 1
  {
    match j
    case Atom(x) => PrintScalar(x)
    case JList(items) => [9] + PrintItems(items)
    case JDict(entries) => [10] + PrintEntries(entries)
  }

  function PrintItems(items: seq<Json>): seq<byte>
    decreases items, 0
  {
    if items == [] then [0] else [1] + Print(items[0]) + PrintItems(items[1..])
  }

  function PrintEntries(entries: seq<JEntry>): seq<byte>
    decreases entries, 0
  {
    if entries == [] then [0]
    else [1] + PrintString(entries[0].key) + Print(entries[0].value) + PrintEntries(entries[1..])
  }

  /** A parsed value and what follows it. */
  datatype Parsed<T> = Bad | Got(value: T, rest: seq<byte>)

  function ParseNat(b: seq<byte>): (p: Parsed<nat>)
    ensures p.Got? ==> |p.rest| < |b|
  {
    if b == [] then Bad
    else if b[0] == 0 then Got(0, b[1..])
    else
      var p := ParseNat(b[1..]);
      if p.Bad? then Bad else Got(p.value + 1, p.rest)
  }

  function ParseString(b: seq<byte>): (p: Parsed<string>)
    ensures p.Got? ==> |p.rest| < |b|
    decreases |b|
  {
    if b == [] then Bad
    else if b[0] == 0 then Got("", b[1..])
    else
      var c := ParseNat(b[1..]);
      if c.Bad? || !IsChar(c.value) then Bad
      else
        var p := ParseString(c.rest);
        if p.Bad? then Bad else Got([c.value as char] + p.value, p.rest)
  }

  predicate IsChar(n: nat) {
    n < 0xD800 || 0xE000 <= n < 0x11_0000
  }

  function ParseJson(b: seq<byte>): (p: Parsed<Json>)
    ensures p.Got? ==> |p.rest| < |b|
    decreases |b|, 1
  {
    if b == [] then Bad else ParseTagged(b[0], b[1..])
  }

  function ParseTagged(tag: byte, b: seq<byte>): (p: Parsed<Json>)
    ensures p.Got? ==> |p.rest| <= |b|
    decreases |b|, 2
  {
    if tag == 2 then Got(Atom(Null), b)
    else if tag == 3 then Got(Atom(Bool(true)), b)
    else if tag == 4 then Got(Atom(Bool(false)), b)
    else if tag == 5 || tag == 6 then
      var p := ParseNat(b);
      if p.Bad? then Bad else Got(Atom(Int(if tag == 5 then p.value else 0 - p.value)), p.rest)
    else if tag == 7 || tag == 8 then
      var p := ParseString(b);
      if p.Bad? then Bad else Got(Atom(if tag == 7 then Float(p.value) else Str(p.value)), p.rest)
    else if tag == 9 then
      var p := ParseItems(b);
      if p.Bad? then Bad else Got(JList(p.value), p.rest)
    else
      var p := ParseEntries(b);
      if p.Bad? then Bad else Got(JDict(p.value), p.rest)
  }

  function ParseItems(b: seq<byte>): (p: Parsed<seq<Json>>)
    ensures p.Got? ==> |p.rest| < |b|
    decreases |b|, 0
  {
    if b == [] then Bad
    else if b[0] == 0 then Got([], b[1..])
    else
      var x := ParseJson(b[1..]);
      if x.Bad? then Bad
      else
        var p := ParseItems(x.rest);
        if p.Bad? then Bad else Got([x.value] + p.value, p.rest)
  }

  function ParseEntries(b: seq<byte>): (p: Parsed<seq<JEntry>>)
    ensures p.Got? ==> |p.rest| < |b|
    decreases |b|, 0
  {
    if b == [] then Bad
    else if b[0] == 0 then Got([], b[1..])
    else
      var key := ParseString(b[1..]);
      if key.Bad? then Bad
      else
        var x := ParseJson(key.rest);
        if x.Bad? then Bad
        else
          var p := ParseEntries(x.rest);
          if p.Bad? then Bad else Got([JEntry(key.value, x.value)] + p.value, p.rest)
  }

  /** Taking the tag off a printed value. */
  lemma Untag(tag: byte, body: seq<byte>, rest: seq<byte>)
    ensures var b := [tag] + body + rest; b != [] && b[0] == tag && b[1..] == body + rest
  {
  }

  lemma {:induction false} NatParses(n: nat, rest: seq<byte>)
    ensures ParseNat(PrintNat(n) + rest) == Got(n, rest)
  {
    if n == 0 {
      assert ([0] + rest)[1..] == rest;
    } else {
      Untag(1, PrintNat(n - 1), rest);
      NatParses(n - 1, rest);
    }
  }

  lemma {:induction false} StringParses(s: string, rest: seq<byte>)
    ensures ParseString(PrintString(s) + rest) == Got(s, rest)
  {
    if s == "" {
      assert ([0] + rest)[1..] == rest;
    } else {
      var c, tail := PrintNat(s[0] as nat), PrintString(s[1..]);
      Untag(1, c + tail, rest);
      assert PrintString(s) + rest == [1] + (c + tail) + rest;
      assert (c + tail) + rest == c + (tail + rest);
      NatParses(s[0] as nat, tail + rest);
      StringParses(s[1..], rest);
      assert [s[0]] + s[1..] == s;
    }
  }

  lemma {:induction false} JsonParses(j: Json, rest: seq<byte>)
    ensures ParseJson(Print(j) + rest) == Got(j, rest)
    decreases j, 1
  {
    match j
    case Atom(x) => ScalarParses(x, rest);
    case JList(items) =>
      Untag(9, PrintItems(items), rest);
      ItemsParse(items, rest);
    case JDict(entries) =>
      Untag(10, PrintEntries(entries), rest);
      EntriesParse(entries, rest);
  }

  lemma ScalarParses(x: Scalar, rest: seq<byte>)
    ensures ParseJson(PrintScalar(x) + rest) == Got(Atom(x), rest)
  {
    match x
    case Int(n) =>
      var m: nat := if n >= 0 then n else -n;
      Untag(if n >= 0 then 5 else 6, PrintNat(m), rest);
      NatParses(m, rest);
    case Float(s) =>
      Untag(7, PrintString(s), rest);
      StringParses(s, rest);
    case Str(s) =>
      Untag(8, PrintString(s), rest);
      StringParses(s, rest);
    case Null => assert ([2] + rest)[1..] == rest;
    case Bool(b) =>
      var tag: byte := if b then 3 else 4;
      assert ([tag] + rest)[1..] == rest;
  }

  lemma {:induction false} ItemsParse(items: seq<Json>, rest: seq<byte>)
    ensures ParseItems(PrintItems(items) + rest) == Got(items, rest)
    decreases items, 0
  {
    if items == [] {
      assert ([0] + rest)[1..] == rest;
    } else {
      var x, tail := Print(items[0]), PrintItems(items[1..]);
      Untag(1, x + tail, rest);
      assert PrintItems(items) + rest == [1] + (x + tail) + rest;
      assert (x + tail) + rest == x + (tail + rest);
      JsonParses(items[0], tail + rest);
      ItemsParse(items[1..], rest);
      assert [items[0]] + items[1..] == items;
    }
  }

  lemma {:induction false} EntriesParse(entries: seq<JEntry>, rest: seq<byte>)
    ensures ParseEntries(PrintEntries(entries) + rest) == Got(entries, rest)
    decreases entries, 0
  {
    if entries == [] {
      assert ([0] + rest)[1..] == rest;
    } else {
      var e := entries[0];
      var key, x, tail := PrintString(e.key), Print(e.value), PrintEntries(entries[1..]);
      Untag(1, key + x + tail, rest);
      Regroup(key, x, tail, rest);
      StringParses(e.key, x + (tail + rest));
      JsonParses(e.value, tail + rest);
      EntriesParse(entries[1..], rest);
      assert [e] + entries[1..] == entries;
    }
  }

  lemma Regroup(key: seq<byte>, x: seq<byte>, tail: seq<byte>, rest: seq<byte>)
    ensures [1] + key + x + tail + rest == [1] + (key + x + tail) + rest
    ensures (key + x + tail) + rest == key + (x + (tail + rest))
  {
  }

  function FromText(b: seq<byte>): Option<Json> {
    var p := ParseJson(b);
    if p.Got? && p.rest == [] && WellFormed(p.value) then Some(p.value) else None
  }

  /** `int()` on JSON values, without float and string parsing. */
  function ToInt(j: Json): Result<int, Fault> {
    match j
    case Atom(Int(n)) => Ok(n)
    case Atom(Bool(b)) => Ok(if b then 1 else 0)
    case Atom(Float(text)) => if text == "inf" || text == "-inf" then Err(IntegerOverflow) else Err(NotAnInteger)
    case _ => Err(NotAnInteger)
  }

  function ToStr(j: Json): string {
    if j.Atom? && j.scalar.Str? then j.scalar.s else ""
  }

  function ToDType(j: Json): Option<DType> {
    if j == Atom(Str("|u1")) then Some(DType("|u1", 1, false, false))
    else if j == Atom(Str("<i4")) then Some(DType("<i4", 4, false, false))
    else if j == Atom(Str("<f8")) then Some(DType("<f8", 8, false, false))
    else if j == Atom(Str("|O")) then Some(DType("|O", 8, true, false))
    else None
  }

  function Concrete(): Runtime {
    Runtime(j => Print(j), b => FromText(b), j => ToInt(j), j => ToStr(j), j => ToDType(j))
  }

  lemma ConcreteDTypes()
    ensures forall j :: ToDType(j).Some? ==> KnownDType(Concrete(), ToDType(j).value)
  {
  }

  /** The laws have a model. */
  lemma ConcreteIsLawful()
    ensures Lawful(Concrete())
  {
    forall j | WellFormed(j) ensures FromText(Print(j)) == Some(j) {
      JsonParses(j, []);
      assert Print(j) + [] == Print(j);
    }
    ConcreteDTypes();
  }

  /** A string longer than every key in use. */
  ghost function Longest(keys: set<string>): (n: nat)
    ensures forall k | k in keys :: |k| <= n
  {
    if keys == {} then 0
    else
      var k :| k in keys;
      var n := Longest(keys - {k});
      assert forall q | q in keys :: q == k || q in keys - {k};
      if |k| > n then |k| else n
  }

  /** An address above every one in use. */
  ghost function Above(objects: map<string, NdArray>, ids: set<string>): (n: int)
    requires ids <= objects.Keys
    ensures forall i | i in ids :: objects[i].addr < n
  {
    if ids == {} then 0
    else
      var i :| i in ids;
      var n := Above(objects, ids - {i});
      assert forall j | j in ids :: j == i || j in ids - {i};
      if objects[i].addr < n then n else objects[i].addr + 1
  }

  /** So has the daemon's behaviour: fresh ids, and memory of its own for every object. */
  lemma DaemonsExist() returns (d: Daemon)
    ensures FreshIds(d) && PlacesApart(d)
  {
    d := Daemon((objects: map<string, NdArray>) => seq(Longest(objects.Keys) + 1, i => 'o'),
                (objects: map<string, NdArray>, a) => Above(objects, objects.Keys));
    forall objects: map<string, NdArray> ensures d.newId(objects) !in objects && d.newId(objects) != "" {
      assert |d.newId(objects)| == Longest(objects.Keys) + 1;
    }
  }

  /** A control message: a JSON object. */
  type Message = j: Json | j.JDict? && WellFormed(j) witness JDict([])

  function ToMessage(b: seq<byte>): Option<Message> {
    var j := FromText(b);
    if j.Some? && j.value.JDict? then Some(j.value) else None
  }

  /** And so has the law of the control frames. */
  lemma MessagesAreLawful()
    ensures Stream.Lawful(Stream.Codec((m: Message) => Print(m), b => ToMessage(b)))
  {
    forall m: Message ensures ToMessage(Print(m)) == Some(m) {
      JsonParses(m, []);
      assert Print(m) + [] == Print(m);
    }
  }
}
