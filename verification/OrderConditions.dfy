/** The conditions of an order, as a request writes them and as the reader of orders takes them apart. */
module OrderConditions {
  import opened Basics
  import opened Fields

  datatype Condition =
    | Margin(conjunction: bool, isMore: bool, percent: int)
    | Time(conjunction: bool, isMore: bool, time: string)
    | Volume(conjunction: bool, isMore: bool, volume: int, conId: int, exchange: string)
    | Execution(conjunction: bool, secType: string, exchange: string, symbol: string)

  datatype Conditions = Conditions(list: seq<Condition>, ignoreRth: bool, cancelOrder: bool)

  function Kind(c: Condition): int
  {
    match c
    case Time(_, _, _) => 3
    case Margin(_, _, _) => 4
    case Execution(_, _, _, _) => 5
    case Volume(_, _, _, _, _) => 6
  }

  function Connector(conjunction: bool): string { if conjunction then "a" else "o" }

  function Flag(b: bool): string { Decimal(if b then 1 else 0) }

  /** What writeExternal writes. */
  function FieldsOf(c: Condition): seq<string>
  {
    match c
    case Margin(a, m, percent) => [Connector(a), Flag(m), Decimal(percent)]
    case Time(a, m, time) => [Connector(a), Flag(m), time]
    case Volume(a, m, volume, conId, exchange) => [Connector(a), Flag(m), Decimal(volume), Decimal(conId), exchange]
    case Execution(a, secType, exchange, symbol) => [Connector(a), secType, exchange, symbol]
  }

  function Printed(list: seq<Condition>): string
  {
    if list == [] then [] else TextOf([Decimal(Kind(list[0]))] + FieldsOf(list[0])) + Printed(list[1..])
  }

  function PrintedAll(o: Conditions): string
  {
    Text(Decimal(|o.list|)) +
    (if o.list == [] then [] else Printed(o.list) + TextOf([Flag(o.ignoreRth), Flag(o.cancelOrder)]))
  }

  /** The texts in a condition may be sent. */
  predicate Sendable(c: Condition)
  {
    match c
    case Margin(_, _, _) => true
    case Time(_, _, time) => Printable(time)
    case Volume(_, _, _, _, exchange) => Printable(exchange)
    case Execution(_, secType, exchange, symbol) => Printable(secType) && Printable(exchange) && Printable(symbol)
  }

  /** Numbers are C++ ints. */
  predicate Representable(c: Condition)
  {
    (c.Margin? ==> IsInt(c.percent)) && (c.Volume? ==> IsInt(c.volume) && IsInt(c.conId))
  }

  // ---- reading

  function ReadInt(s: string): Read<int>
  {
    var f :- NextField(s);
    Got(Atoi(f.0), f.1)
  }

  function ReadFlag(s: string): Read<bool>
  {
    var n :- ReadInt(s);
    Got(n.0 > 0, n.1)
  }

  function ReadConnector(s: string): Read<bool>
  {
    var f :- NextField(s);
    Got(f.0 == "a", f.1)
  }

  datatype Operator = Operator(conjunction: bool, isMore: bool, value: string)

  function ReadOperator(s: string): Read<Operator>
  {
    var a :- ReadConnector(s);
    var m :- ReadFlag(a.1);
    var v :- NextField(m.1);
    Got(Operator(a.0, m.0, v.0), v.1)
  }

  /** create and readExternal for a condition type; `unset` is what an int holds that was never assigned. */
  function ReadCondition(kind: int, s: string, unset: int): Read<Condition>
  {
    if kind == 3 then
      var p :- ReadOperator(s);
      Got(Time(p.0.conjunction, p.0.isMore, p.0.value), p.1)
    else if kind == 4 then
      var p :- ReadOperator(s);
      Got(Margin(p.0.conjunction, p.0.isMore, StreamInt(p.0.value, unset)), p.1)
    else if kind == 5 then
      var a :- ReadConnector(s);
      var t :- NextField(a.1);
      var e :- NextField(t.1);
      var y :- NextField(e.1);
      Got(Execution(a.0, t.0, e.0, y.0), y.1)
    else if kind == 6 then
      var p :- ReadOperator(s);
      var i :- ReadInt(p.1);
      var e :- NextField(i.1);
      Got(Volume(p.0.conjunction, p.0.isMore, StreamInt(p.0.value, unset), i.0, e.0), e.1)
    else if kind == 1 || kind == 7 then Bad(OtherKind)
    else Bad(NullItem)
  }

  function ReadList(n: nat, s: string, unset: int): Read<seq<Condition>>
  {
    if n == 0 then Got([], s)
    else
      var k :- ReadInt(s);
      var c :- ReadCondition(k.0, k.1, unset);
      var cs :- ReadList(n - 1, c.1, unset);
      Got([c.0] + cs.0, cs.1)
  }

  /** decodeConditions for an order that holds `before`. */
  function ReadAll(s: string, before: Conditions, unset: int): Read<Conditions>
  {
    var n :- ReadInt(s);
    if n.0 <= 0 then Got(before, n.1)
    else
      var cs :- ReadList(n.0, n.1, unset);
      var r :- ReadFlag(cs.1);
      var c :- ReadFlag(r.1);
      Got(Conditions(before.list + cs.0, r.0, c.0), c.1)
  }

  /** What stands for the four conditions in a message, up to the NULs between the fields. */
  lemma WrittenFields(m: Condition, t: Condition, v: Condition, x: Condition)
    requires m.Margin? && !m.conjunction && m.isMore && m.percent == 7
    requires t.Time? && t.conjunction && !t.isMore
    requires v.Volume? && v.conjunction && v.isMore && v.volume == 8 && v.conId == -9
    requires x.Execution? && !x.conjunction
    ensures [Decimal(Kind(m))] + FieldsOf(m) == ["4", "o", "1", "7"]
    ensures [Decimal(Kind(t))] + FieldsOf(t) == ["3", "a", "0", t.time]
    ensures [Decimal(Kind(v))] + FieldsOf(v) == ["6", "a", "1", "8", "-9", v.exchange]
    ensures [Decimal(Kind(x))] + FieldsOf(x) == ["5", "o", x.secType, x.exchange, x.symbol]
  {
    OneFigure();
    hide Decimal;
  }

  lemma OneFigure()
    ensures Decimal(0) == "0" && Decimal(1) == "1" && Decimal(3) == "3" && Decimal(4) == "4" && Decimal(5) == "5"
    ensures Decimal(6) == "6" && Decimal(7) == "7" && Decimal(8) == "8" && Decimal(-9) == "-9"
  {
  }

  /** A Time condition with one of the two flags set, field by field. */
  lemma WrittenOrder()
    ensures PrintedAll(Conditions([Time(true, false, "noon")], true, false))
            == TextOf(["1", "3", "a", "0", "noon", "1", "0"])
    ensures Text("1") == "1\0"
  {
    hide Decimal, Text;
    OneFigure();
    OneText();
    var c := Time(true, false, "noon");
    assert [c][1..] == [];
    assert Printed([c]) == TextOf(["3"] + ["a", "0", "noon"]) + Printed([]) == TextOf(["3", "a", "0", "noon"]) by {
      assert ["3"] + ["a", "0", "noon"] == ["3", "a", "0", "noon"];
    }
    hide Printed;
    TextsOf("1", ["3", "a", "0", "noon"], ["1", "0"]);
    assert ["1"] + ["3", "a", "0", "noon"] + ["1", "0"] == ["1", "3", "a", "0", "noon", "1", "0"];
  }

  lemma OneText()
    ensures Text("1") == "1\0"
  {
  }

  lemma TextsOf(a: string, b: seq<string>, c: seq<string>)
    ensures TextOf([a] + b + c) == Text(a) + (TextOf(b) + TextOf(c))
  {
    hide Text;
    assert ([a] + b + c)[1..] == b + c;
    TextOfConcat(b, c);
  }

  /** One condition of each type comes back, with any numbers that fit an int and any texts that may be sent. */
  lemma FourConditionsReturn(percent: int, volume: int, conId: int, text: string, a: bool, m: bool, rest: string, unset: int)
    requires -2147483648 <= percent <= 2147483647 && -2147483648 <= volume <= 2147483647
    requires -2147483648 <= conId <= 2147483647 && forall c :: c in text ==> ' ' <= c <= '~'
    ensures var o := Conditions([Margin(a, m, percent), Time(m, a, text), Volume(a, m, volume, conId, text),
                                 Execution(a, text, text, text)], a, m);
            ReadAll(PrintedAll(o) + rest, Conditions([], m, a), unset) == Got(o, rest)
  {
    hide PrintedAll, ReadAll;
    PrintableMeans(text);
    var o := Conditions([Margin(a, m, percent), Time(m, a, text), Volume(a, m, volume, conId, text),
                         Execution(a, text, text, text)], a, m);
    RoundTrip(o, rest, Conditions([], m, a), unset);
  }

  /** A type that no condition has makes the read fail, and so do the two that are not modelled. */
  lemma OtherTypes(kind: int, s: string, unset: int)
    ensures kind in {1, 7} ==> ReadCondition(kind, s, unset) == Bad(OtherKind)
    ensures kind !in {1, 3, 4, 5, 6, 7} ==> ReadCondition(kind, s, unset) == Bad(NullItem)
  {
  }

  // ---- the round trip

  lemma FirstInt(n: int, fs: seq<string>, rest: string)
    requires IsInt(n)
    ensures ReadInt(TextOf([Decimal(n)] + fs) + rest) == Got(n, TextOf(fs) + rest)
  {
    DecimalIsPrintable(n);
    PrintableHasNoNul(Decimal(n));
    FirstField(Decimal(n), fs, rest);
    DecimalRoundTrip(n, 0);
  }

  lemma FirstFlag(b: bool, fs: seq<string>, rest: string)
    ensures ReadFlag(TextOf([Flag(b)] + fs) + rest) == Got(b, TextOf(fs) + rest)
  {
    FirstInt(if b then 1 else 0, fs, rest);
  }

  lemma FirstConnector(b: bool, fs: seq<string>, rest: string)
    ensures ReadConnector(TextOf([Connector(b)] + fs) + rest) == Got(b, TextOf(fs) + rest)
  {
    FirstField(Connector(b), fs, rest);
  }

  lemma FirstOperator(a: bool, m: bool, v: string, fs: seq<string>, rest: string)
    requires NUL !in v
    ensures ReadOperator(TextOf([Connector(a), Flag(m), v] + fs) + rest) == Got(Operator(a, m, v), TextOf(fs) + rest)
  {
    hide TextOf, ReadFlag, ReadConnector, Flag, Connector, NextField;
    assert [Connector(a), Flag(m), v] + fs == [Connector(a)] + ([Flag(m)] + ([v] + fs));
    FirstConnector(a, [Flag(m)] + ([v] + fs), rest);
    FirstFlag(m, [v] + fs, rest);
    FirstField(v, fs, rest);
  }

  lemma ExecutionRoundTrip(a: bool, secType: string, exchange: string, symbol: string, rest: string, unset: int)
    requires Printable(secType) && Printable(exchange) && Printable(symbol)
    ensures var c := Execution(a, secType, exchange, symbol);
            ReadCondition(5, TextOf(FieldsOf(c)) + rest, unset) == Got(c, rest)
  {
    assert TextOf([]) + rest == rest;
    hide TextOf, ReadConnector, Connector, NextField;
    assert FieldsOf(Execution(a, secType, exchange, symbol)) ==
           [Connector(a)] + ([secType] + ([exchange] + ([symbol] + [])));
    FirstConnector(a, [secType] + ([exchange] + ([symbol] + [])), rest);
    FirstField(secType, [exchange] + ([symbol] + []), rest);
    FirstField(exchange, [symbol] + [], rest);
    FirstField(symbol, [], rest);
  }

  lemma VolumeRoundTrip(a: bool, m: bool, volume: int, conId: int, exchange: string, rest: string, unset: int)
    requires IsInt(volume) && IsInt(conId) && Printable(exchange)
    ensures var c := Volume(a, m, volume, conId, exchange);
            ReadCondition(6, TextOf(FieldsOf(c)) + rest, unset) == Got(c, rest)
  {
    DecimalIsPrintable(volume);
    PrintableHasNoNul(Decimal(volume));
    PrintableHasNoNul(exchange);
    DecimalRoundTrip(volume, unset);
    hide TextOf, ReadInt, ReadOperator, ReadCondition, Flag, Connector, NextField, StreamInt, Decimal, Printable;
    var v, more := Decimal(volume), [Decimal(conId), exchange];
    assert FieldsOf(Volume(a, m, volume, conId, exchange)) == [Connector(a), Flag(m), v] + more;
    FirstOperator(a, m, v, more, rest);
    ContractRoundTrip(conId, exchange, rest);
    VolumeParts(TextOf([Connector(a), Flag(m), v] + more) + rest, unset);
  }

  /** The order in which the parts of a volume condition are read. */
  lemma VolumeParts(s: string, unset: int)
    requires ReadOperator(s).Got? && ReadInt(ReadOperator(s).rest).Got?
    requires NextField(ReadInt(ReadOperator(s).rest).rest).Got?
    ensures var p, i := ReadOperator(s), ReadInt(ReadOperator(s).rest);
            var e := NextField(i.rest);
            ReadCondition(6, s, unset) ==
            Got(Volume(p.value.conjunction, p.value.isMore, StreamInt(p.value.value, unset), i.value, e.value), e.rest)
  {
    hide ReadOperator, ReadInt, NextField, StreamInt;
  }

  lemma ContractRoundTrip(conId: int, exchange: string, rest: string)
    requires IsInt(conId) && NUL !in exchange
    ensures ReadInt(TextOf([Decimal(conId), exchange]) + rest) == Got(conId, TextOf([exchange]) + rest)
    ensures NextField(TextOf([exchange]) + rest) == Got(exchange, rest)
  {
    assert TextOf([]) + rest == rest;
    hide TextOf, ReadInt, NextField;
    assert [Decimal(conId), exchange] == [Decimal(conId)] + [exchange] && [exchange] == [exchange] + [];
    FirstInt(conId, [exchange], rest);
    FirstField(exchange, [], rest);
  }

  /** Time and margin conditions are an operator only. */
  lemma OperatorRoundTrip(a: bool, m: bool, value: string, rest: string)
    requires NUL !in value
    ensures ReadOperator(TextOf([Connector(a), Flag(m), value]) + rest) == Got(Operator(a, m, value), rest)
  {
    assert TextOf([]) + rest == rest;
    hide TextOf, ReadOperator, Flag, Connector;
    assert [Connector(a), Flag(m), value] == [Connector(a), Flag(m), value] + [];
    FirstOperator(a, m, value, [], rest);
  }

  /** A condition that was written is read back, whatever follows it. */
  lemma ConditionRoundTrip(c: Condition, rest: string, unset: int)
    requires Sendable(c) && Representable(c)
    ensures ReadCondition(Kind(c), TextOf(FieldsOf(c)) + rest, unset) == Got(c, rest)
  {
    match c {
      case Margin(a, m, percent) =>
        DecimalIsPrintable(percent);
        DecimalRoundTrip(percent, unset);
        hide TextOf, ReadOperator, Flag, Connector, StreamInt, Decimal;
        OperatorRoundTrip(a, m, Decimal(percent), rest);
      case Time(a, m, time) =>
        hide TextOf, ReadOperator, Flag, Connector;
        OperatorRoundTrip(a, m, time, rest);
      case Volume(a, m, volume, conId, exchange) =>
        VolumeRoundTrip(a, m, volume, conId, exchange, rest, unset);
      case Execution(a, secType, exchange, symbol) =>
        ExecutionRoundTrip(a, secType, exchange, symbol, rest, unset);
    }
  }

  lemma {:induction false} ListRoundTrip(list: seq<Condition>, rest: string, unset: int)
    requires forall i :: 0 <= i < |list| ==> Sendable(list[i]) && Representable(list[i])
    ensures ReadList(|list|, Printed(list) + rest, unset) == Got(list, rest)
  {
    hide TextOf, ReadInt, ReadCondition, FieldsOf, Sendable, Representable;
    if list == [] {
      assert Printed(list) + rest == rest;
    } else {
      var c, tail := list[0], Printed(list[1..]) + rest;
      assert Printed(list) + rest == TextOf([Decimal(Kind(c))] + FieldsOf(c)) + tail;
      FirstInt(Kind(c), FieldsOf(c), tail);
      ConditionRoundTrip(c, tail, unset);
      ListRoundTrip(list[1..], rest, unset);
      assert list == [c] + list[1..];
    }
  }

  /** What is written is read back as the same list and flags, exactly the bytes written are used up, and what
      follows plays no part. Without conditions the flags are not sent: the reader keeps those it had. */
  lemma RoundTrip(o: Conditions, rest: string, before: Conditions, unset: int)
    requires forall i :: 0 <= i < |o.list| ==> Sendable(o.list[i]) && Representable(o.list[i])
    requires |o.list| <= INT_MAX && before.list == []
    ensures ReadAll(PrintedAll(o) + rest, before, unset) == Got(if o.list == [] then before else o, rest)
    ensures ReadAll(PrintedAll(o) + rest, before, unset) == Got(o, rest) <==> o.list != [] || o == before
  {
    hide Printed, ReadInt, ReadFlag, ReadList, Decimal, Flag, Sendable, Representable;
    var n := |o.list|;
    assert before.list + o.list == o.list;
    var flags := [Flag(o.ignoreRth)] + ([Flag(o.cancelOrder)] + []);
    assert [Decimal(n)] + [] == [Decimal(n)];
    assert TextOf([Decimal(n)] + []) == Text(Decimal(n)) && forall r: string :: TextOf([]) + r == r;
    hide TextOf;
    if o.list == [] {
      assert PrintedAll(o) + rest == TextOf([Decimal(n)] + []) + rest;
      FirstInt(n, [], rest);
    } else {
      assert flags == [Flag(o.ignoreRth), Flag(o.cancelOrder)];
      assert PrintedAll(o) + rest == TextOf([Decimal(n)] + []) + (Printed(o.list) + (TextOf(flags) + rest));
      FirstInt(n, [], Printed(o.list) + (TextOf(flags) + rest));
      ListRoundTrip(o.list, TextOf(flags) + rest, unset);
      FirstFlag(o.ignoreRth, [Flag(o.cancelOrder)] + [], rest);
      FirstFlag(o.cancelOrder, [], rest);
    }
  }

  /** Without conditions, flags that are set do not arrive. */
  lemma FlagsWithoutConditions()
    ensures var o, before := Conditions([], true, true), Conditions([], false, false);
            ReadAll(PrintedAll(o), before, 0) == Got(before, []) && before != o
  {
    var o, before := Conditions([], true, true), Conditions([], false, false);
    RoundTrip(o, [], before, 0);
    assert PrintedAll(o) + [] == PrintedAll(o);
  }
}
