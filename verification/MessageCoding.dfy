/** The encoder that appends fields to a message and the decoder that moves a pointer through one. */
module MessageCoding {
  import opened Basics
  import opened Fields
  import opened OrderConditions

  class OutStream {
    var text: string

    constructor ()
      ensures text == []
    {
      text := [];
    }

    method EncodeInt(n: int)
      modifies this
      ensures text == old(text) + Text(Decimal(n))
    {
      text := text + Decimal(n);
      text := text + [NUL];
    }

    method EncodeBool(b: bool)
      modifies this
      ensures text == old(text) + Text(Flag(b))
    {
      EncodeInt(if b then 1 else 0);
    }

    /** Nothing is written, and the request is given up, for a text with characters that may not be sent. */
    method EncodeString(s: string) returns (ok: bool)
      modifies this
      ensures ok <==> Printable(s)
      ensures text == old(text) + if ok then Text(s) else []
    {
      ok := IsAsciiPrintable(s);
      if ok {
        text := text + s;
        text := text + [NUL];
      }
    }

    static method IsAsciiPrintable(s: string) returns (ok: bool)
      ensures ok <==> Printable(s)
    {
      for i := 0 to |s|
        invariant Printable(s[..i])
      {
        if !(32 <= s[i] as int < 127) {
          return false;
        }
      }
      return true;
    }

    method WriteBase(conjunction: bool)
      modifies this
      ensures text == old(text) + Text(Connector(conjunction))
    {
      var ok := EncodeString(if conjunction then "a" else "o");
    }

    method WriteOperator(conjunction: bool, isMore: bool, value: string) returns (ok: bool)
      modifies this
      ensures ok <==> Printable(value)
      ensures ok ==> text == old(text) + TextOf([Connector(conjunction), Flag(isMore), value])
    {
      ghost var was := text;
      hide Flag, Connector, Printable;
      WriteBase(conjunction);
      EncodeBool(isMore);
      ok := EncodeString(value);
      ThreeFields(was, Connector(conjunction), Flag(isMore), value);
    }

    method WriteContract(conjunction: bool, isMore: bool, value: string, conId: int, exchange: string) returns (ok: bool)
      requires Printable(value)
      modifies this
      ensures ok <==> Printable(exchange)
      ensures ok ==> text == old(text) + TextOf([Connector(conjunction), Flag(isMore), value, Decimal(conId), exchange])
    {
      ghost var was := text;
      ghost var first := [Connector(conjunction), Flag(isMore), value];
      hide Flag, Connector, Printable, Decimal;
      ok := WriteOperator(conjunction, isMore, value);
      EncodeInt(conId);
      ok := EncodeString(exchange);
      TwoFields(was + TextOf(first), Decimal(conId), exchange);
      TextOfConcat(first, [Decimal(conId), exchange]);
      assert first + [Decimal(conId), exchange] == [Connector(conjunction), Flag(isMore), value, Decimal(conId), exchange];
    }

    method WriteExecution(conjunction: bool, secType: string, exchange: string, symbol: string) returns (ok: bool)
      modifies this
      ensures ok <==> Printable(secType) && Printable(exchange) && Printable(symbol)
      ensures ok ==> text == old(text) + TextOf([Connector(conjunction), secType, exchange, symbol])
    {
      ghost var was := text;
      hide Connector, Printable;
      WriteBase(conjunction);
      ok := EncodeString(secType);
      if !ok {
        return;
      }
      ok := EncodeString(exchange);
      if !ok {
        return;
      }
      ok := EncodeString(symbol);
      TwoFields(was, Connector(conjunction), secType);
      TwoFields(was + TextOf([Connector(conjunction), secType]), exchange, symbol);
      TextOfConcat([Connector(conjunction), secType], [exchange, symbol]);
      assert [Connector(conjunction), secType] + [exchange, symbol] == [Connector(conjunction), secType, exchange, symbol];
    }

    method WriteExternal(c: Condition) returns (ok: bool)
      modifies this
      ensures ok <==> Sendable(c)
      ensures ok ==> text == old(text) + TextOf(FieldsOf(c))
    {
      match c {
        case Margin(a, m, percent) =>
          DecimalIsPrintable(percent);
          ok := WriteOperator(a, m, Decimal(percent));
        case Time(a, m, time) =>
          ok := WriteOperator(a, m, time);
        case Volume(a, m, volume, conId, exchange) =>
          DecimalIsPrintable(volume);
          ok := WriteContract(a, m, Decimal(volume), conId, exchange);
        case Execution(a, secType, exchange, symbol) =>
          ok := WriteExecution(a, secType, exchange, symbol);
      }
    }

    /** The block of placeOrder that writes the conditions; without success the whole request is given up. */
    method WriteConditions(o: Conditions) returns (ok: bool)
      modifies this
      ensures ok <==> forall i :: 0 <= i < |o.list| ==> Sendable(o.list[i])
      ensures ok ==> text == old(text) + PrintedAll(o)
    {
      hide Flag, Decimal, Sendable, FieldsOf, Kind, Printed;
      ghost var was := text;
      EncodeInt(|o.list|);
      if |o.list| > 0 {
        ghost var head := text;
        PrintedNone();
        for i := 0 to |o.list|
          invariant text == head + Printed(o.list[..i])
          invariant forall j :: 0 <= j < i ==> Sendable(o.list[j])
        {
          EncodeInt(Kind(o.list[i]));
          ok := WriteExternal(o.list[i]);
          if !ok {
            return;
          }
          assert o.list[..i + 1] == o.list[..i] + [o.list[i]];
          PrintedAppend(o.list[..i], o.list[i]);
        }
        assert o.list[..|o.list|] == o.list;
        EncodeBool(o.ignoreRth);
        EncodeBool(o.cancelOrder);
        TwoFields(head + Printed(o.list), Flag(o.ignoreRth), Flag(o.cancelOrder));
      }
      ok := true;
    }
  }

  lemma TwoFields(was: string, f: string, g: string)
    ensures was + Text(f) + Text(g) == was + TextOf([f, g])
  {
    assert [f, g][1..] == [g] && [g][1..] == [];
    assert TextOf([g]) == Text(g) + [];
  }

  lemma ThreeFields(was: string, f: string, g: string, h: string)
    ensures was + Text(f) + Text(g) + Text(h) == was + TextOf([f, g, h])
  {
    assert [f, g, h][1..] == [g, h];
    TwoFields(was + Text(f), g, h);
  }

  lemma PrintedNone()
    ensures Printed([]) == []
  {
  }

  lemma {:induction false} PrintedAppend(list: seq<Condition>, c: Condition)
    ensures Printed(list + [c]) == Printed(list) + Text(Decimal(Kind(c))) + TextOf(FieldsOf(c))
  {
    hide TextOf, Decimal, Kind, FieldsOf;
    if list == [] {
      assert list + [c] == [c] && [c][1..] == [];
      FirstText(Decimal(Kind(c)), FieldsOf(c));
    } else {
      assert (list + [c])[1..] == list[1..] + [c];
      PrintedAppend(list[1..], c);
    }
  }

  lemma FirstText(f: string, fs: seq<string>)
    ensures TextOf([f] + fs) == Text(f) + TextOf(fs)
  {
    assert ([f] + fs)[1..] == fs;
  }

  // ---- decoding

  datatype Result<+T> = Ok(value: T) | Fail(why: Failure)

  /** A method returned r and left `rest`: that is what the reading function says. */
  predicate Agrees<T(==)>(r: Result<T>, rest: string, spec: Read<T>)
  {
    match spec
    case Got(v, s) => r == Ok(v) && rest == s
    case Bad(w) => r == Fail(w)
  }

  class Cursor {
    const data: string
    var ptr: nat

    constructor (data: string)
      ensures this.data == data && Valid() && Rest() == data
    {
      this.data, ptr := data, 0;
      new;
      assert data[0..] == data;
    }

    ghost predicate Valid()
      reads this
    {
      ptr <= |data|
    }

    ghost function Rest(): string
      requires Valid()
      reads this
    {
      data[ptr..]
    }

    method DecodeString() returns (r: Result<string>)
      requires Valid()
      modifies this
      ensures Valid() && Agrees(r, Rest(), NextField(old(Rest())))
    {
      hide NextField, Text;
      if ptr >= |data| {
        RestHasNoField(data, ptr);
        return Fail(Short);
      }
      var end := ptr;
      while end < |data| && data[end] != NUL
        invariant ptr <= end <= |data| && forall i :: ptr <= i < end ==> data[i] != NUL
      {
        end := end + 1;
      }
      if end == |data| {
        RestHasNoField(data, ptr);
        return Fail(Short);
      }
      var f := data[ptr..end];
      FieldInFront(data, ptr, end);
      ptr := end + 1;
      return Ok(f);
    }

    method DecodeInt() returns (r: Result<int>)
      requires Valid()
      modifies this
      ensures Valid() && Agrees(r, Rest(), ReadInt(old(Rest())))
    {
      hide NextField;
      var f := DecodeString();
      if f.Fail? {
        return Fail(f.why);
      }
      return Ok(Atoi(f.value));
    }

    method DecodeBool() returns (r: Result<bool>)
      requires Valid()
      modifies this
      ensures Valid() && Agrees(r, Rest(), ReadFlag(old(Rest())))
    {
      hide ReadInt;
      var n := DecodeInt();
      if n.Fail? {
        return Fail(n.why);
      }
      return Ok(n.value > 0);
    }

    method ReadBase() returns (r: Result<bool>)
      requires Valid()
      modifies this
      ensures Valid() && Agrees(r, Rest(), ReadConnector(old(Rest())))
    {
      hide NextField;
      var f := DecodeString();
      if f.Fail? {
        return Fail(f.why);
      }
      return Ok(f.value == "a");
    }

    method ReadOperatorFields() returns (r: Result<Operator>)
      requires Valid()
      modifies this
      ensures Valid() && Agrees(r, Rest(), ReadOperator(old(Rest())))
    {
      hide NextField, ReadConnector, ReadFlag;
      var a := ReadBase();
      if a.Fail? {
        return Fail(a.why);
      }
      var m := DecodeBool();
      if m.Fail? {
        return Fail(m.why);
      }
      var v := DecodeString();
      if v.Fail? {
        return Fail(v.why);
      }
      return Ok(Operator(a.value, m.value, v.value));
    }

    method ReadExecution() returns (r: Result<Condition>)
      requires Valid()
      modifies this
      ensures Valid() && Agrees(r, Rest(), ReadCondition(5, old(Rest()), 0))
    {
      hide NextField, ReadConnector;
      var a := ReadBase();
      if a.Fail? {
        return Fail(a.why);
      }
      var t := DecodeString();
      if t.Fail? {
        return Fail(t.why);
      }
      var e := DecodeString();
      if e.Fail? {
        return Fail(e.why);
      }
      var y := DecodeString();
      if y.Fail? {
        return Fail(y.why);
      }
      return Ok(Execution(a.value, t.value, e.value, y.value));
    }

    method ReadVolume(unset: int) returns (r: Result<Condition>)
      requires Valid()
      modifies this
      ensures Valid() && Agrees(r, Rest(), ReadCondition(6, old(Rest()), unset))
    {
      hide NextField, ReadOperator, ReadInt;
      var p := ReadOperatorFields();
      if p.Fail? {
        return Fail(p.why);
      }
      var i := DecodeInt();
      if i.Fail? {
        return Fail(i.why);
      }
      var e := DecodeString();
      if e.Fail? {
        return Fail(e.why);
      }
      var v := StreamInt(p.value.value, unset);
      return Ok(Volume(p.value.conjunction, p.value.isMore, v, i.value, e.value));
    }

    /** create, and then readExternal through what it returned. */
    method ReadExternal(kind: int, unset: int) returns (r: Result<Condition>)
      requires Valid()
      modifies this
      ensures Valid() && Agrees(r, Rest(), ReadCondition(kind, old(Rest()), unset))
    {
      if kind == 5 {
        r := ReadExecution();
      } else if kind == 6 {
        r := ReadVolume(unset);
      } else if kind == 3 || kind == 4 {
        hide ReadOperator;
        var p := ReadOperatorFields();
        if p.Fail? {
          return Fail(p.why);
        }
        var a, m, v := p.value.conjunction, p.value.isMore, p.value.value;
        r := Ok(if kind == 3 then Time(a, m, v) else Margin(a, m, StreamInt(v, unset)));
      } else if kind == 1 || kind == 7 {
        r := Fail(OtherKind);
      } else {
        r := Fail(NullItem);
      }
    }

    method DecodeConditions(before: Conditions, unset: int) returns (r: Result<Conditions>)
      requires Valid()
      modifies this
      ensures Valid() && Agrees(r, Rest(), ReadAll(old(Rest()), before, unset))
    {
      hide ReadInt, ReadFlag, ReadCondition;
      var n := DecodeInt();
      if n.Fail? {
        return Fail(n.why);
      }
      if n.value <= 0 {
        return Ok(before);
      }
      var list: Result<seq<Condition>> := DecodeList(n.value, before.list, unset);
      if list.Fail? {
        return Fail(list.why);
      }
      hide ReadList;
      var i := DecodeBool();
      if i.Fail? {
        return Fail(i.why);
      }
      var c := DecodeBool();
      if c.Fail? {
        return Fail(c.why);
      }
      return Ok(Conditions(list.value, i.value, c.value));
    }

    /** The loop of decodeConditions. */
    method DecodeList(n: nat, before: seq<Condition>, unset: int) returns (r: Result<seq<Condition>>)
      requires Valid()
      modifies this
      ensures Valid() && Agrees(r, Rest(), Onto(before, ReadList(n, old(Rest()), unset)))
    {
      hide ReadInt, ReadCondition;
      var list, left := before, n;
      assert before + [] == before;
      while left != 0
        invariant Valid() && 0 <= left <= n
        invariant Onto(list, ReadList(left, Rest(), unset)) == Onto(before, ReadList(n, old(Rest()), unset))
        decreases left
      {
        ghost var s, sofar := Rest(), list;
        var kind := DecodeInt();
        if kind.Fail? {
          return Fail(kind.why);
        }
        var item := ReadExternal(kind.value, unset);
        if item.Fail? {
          return Fail(item.why);
        }
        list := list + [item.value];
        left := left - 1;
        OneMore(sofar, item.value, ReadList(left, Rest(), unset));
      }
      assert list + [] == list;
      return Ok(list);
    }
  }

  function Onto(list: seq<Condition>, read: Read<seq<Condition>>): Read<seq<Condition>>
  {
    match read
    case Got(cs, s) => Got(list + cs, s)
    case Bad(w) => Bad(w)
  }

  lemma OneMore(list: seq<Condition>, c: Condition, read: Read<seq<Condition>>)
    ensures Onto(list + [c], read) == Onto(list, Onto([c], read))
  {
    if read.Got? {
      assert list + [c] + read.value == list + ([c] + read.value);
    }
  }

  lemma FieldInFront(data: string, a: nat, b: nat)
    requires a <= b < |data| && data[b] == NUL && forall i :: a <= i < b ==> data[i] != NUL
    ensures NextField(data[a..]) == Got(data[a..b], data[b + 1..])
  {
    hide NextField;
    assert data[a..] == Text(data[a..b]) + data[b + 1..];
    NextFieldExact(data[a..], data[a..b], data[b + 1..]);
  }

  lemma RestHasNoField(data: string, a: nat)
    requires a <= |data| && forall i :: a <= i < |data| ==> data[i] != NUL
    ensures NextField(data[a..]) == Bad(Short)
  {
    hide NextField;
    NoField(data[a..]);
  }

  lemma {:induction false} NoField(s: string)
    requires NUL !in s
    ensures NextField(s) == Bad(Short)
  {
    if s != [] { NoField(s[1..]); }
  }

  /** From a client that writes the conditions to a reader that takes them: the client refuses exactly the
      texts that may not be sent, and otherwise the reader has the list and the flags. */
  method SendAndRead(o: Conditions, rest: string, before: Conditions, unset: int) returns (sent: bool, r: Result<Conditions>)
    requires |o.list| <= INT_MAX && before.list == [] && forall i :: 0 <= i < |o.list| ==> Representable(o.list[i])
    ensures sent <==> forall i :: 0 <= i < |o.list| ==> Sendable(o.list[i])
    ensures sent ==> r == Ok(if o.list == [] then before else o)
  {
    hide Sendable, Representable, ReadAll, PrintedAll;
    var out := new OutStream();
    sent := out.WriteConditions(o);
    if !sent {
      return false, Fail(Short);
    }
    RoundTrip(o, rest, before, unset);
    assert out.text == PrintedAll(o);
    var cursor := new Cursor(out.text + rest);
    r := cursor.DecodeConditions(before, unset);
  }
}
