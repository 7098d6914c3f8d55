// The characteristic-properties bit field of the GATT client
// (Bluetooth Core Vol 3 Part G section 3.3.1.1, src/gatt_client.rs):
// decoding and encoding the byte, and the list of flag names.

module GattProperties {
  import opened Common

  datatype CharacteristicProperties = CharacteristicProperties(
    broadcast: bool,
    read: bool,
    writeWithoutResponse: bool,
    write: bool,
    notify: bool,
    indicate: bool,
    authenticatedSignedWrites: bool,
    extendedProperties: bool)
  {
    /// The flags in bit order, bit 0 first.
    function AsBits(): seq<bool>
    {
      [broadcast] + ([read] + ([writeWithoutResponse] + ([write] + ([notify] + ([indicate] +
        ([authenticatedSignedWrites] + [extendedProperties]))))))
    }

    predicate Writable()
    {
      write || writeWithoutResponse
    }
  }

  /// `CharacteristicProperties::from_byte`: bit k gives the k-th flag.
  function FromByte(b: byte): CharacteristicProperties
  {
    CharacteristicProperties(Bit(b, 0), Bit(b, 1), Bit(b, 2), Bit(b, 3), Bit(b, 4), Bit(b, 5), Bit(b, 6), Bit(b, 7))
  }

  lemma Pow2Table()
    ensures Pow2(0) == 1 && Pow2(1) == 2 && Pow2(2) == 4 && Pow2(3) == 8
    ensures Pow2(4) == 16 && Pow2(5) == 32 && Pow2(6) == 64 && Pow2(7) == 128 && Pow2(8) == 256
  {
    assert Pow2(4) == 16;
  }

  /// The mask a set flag contributes.
  function Weight(flag: bool, mask: nat): nat
  {
    if flag then mask else 0
  }

  /// `if flag { x |= mask }`
  function OrIf(x: nat, flag: bool, mask: nat): nat
  {
    if flag then BitOr(x, mask) else x
  }

  /// `to_byte`: start from 0 and OR in the mask of each flag that is set.
  method ToByte(p: CharacteristicProperties) returns (b: byte)
    ensures b == BitsValue(p.AsBits())
  {
    var x: nat := 0;
    if p.broadcast {
      x := BitOr(x, 0x01);
    }
    ghost var x0 := x;
    if p.read {
      x := BitOr(x, 0x02);
    }
    ghost var x1 := x;
    if p.writeWithoutResponse {
      x := BitOr(x, 0x04);
    }
    ghost var x2 := x;
    if p.write {
      x := BitOr(x, 0x08);
    }
    ghost var x3 := x;
    if p.notify {
      x := BitOr(x, 0x10);
    }
    ghost var x4 := x;
    if p.indicate {
      x := BitOr(x, 0x20);
    }
    ghost var x5 := x;
    if p.authenticatedSignedWrites {
      x := BitOr(x, 0x40);
    }
    ghost var x6 := x;
    if p.extendedProperties {
      x := BitOr(x, 0x80);
    }
    assert x0 == OrIf(0, p.broadcast, 0x01) && x1 == OrIf(x0, p.read, 0x02) && x2 == OrIf(x1, p.writeWithoutResponse, 0x04);
    assert x3 == OrIf(x2, p.write, 0x08) && x4 == OrIf(x3, p.notify, 0x10) && x5 == OrIf(x4, p.indicate, 0x20);
    assert x6 == OrIf(x5, p.authenticatedSignedWrites, 0x40) && x == OrIf(x6, p.extendedProperties, 0x80);
    OrChainValue(p);
    b := x;
  }

  /// The eight conditional ORs of `to_byte`, in order.
  function OrChain(p: CharacteristicProperties): nat
  {
    var x0 := OrIf(0, p.broadcast, 0x01);
    var x1 := OrIf(x0, p.read, 0x02);
    var x2 := OrIf(x1, p.writeWithoutResponse, 0x04);
    var x3 := OrIf(x2, p.write, 0x08);
    var x4 := OrIf(x3, p.notify, 0x10);
    var x5 := OrIf(x4, p.indicate, 0x20);
    var x6 := OrIf(x5, p.authenticatedSignedWrites, 0x40);
    OrIf(x6, p.extendedProperties, 0x80)
  }

  /// One conditional OR of a fresh high bit adds its weight.
  lemma OrIfStep(x: nat, flag: bool, k: nat, mask: nat)
    requires mask == Pow2(k) && x < mask
    ensures OrIf(x, flag, mask) == x + Weight(flag, mask) < 2 * mask
  {
    if flag {
      SetHighBit(x, k);
    }
  }

  /// Each of the eight conditional ORs sets a bit above all earlier ones,
  /// so the chain adds up the weights of the set flags.
  lemma EightOrs(b0: bool, b1: bool, b2: bool, b3: bool, b4: bool, b5: bool, b6: bool, b7: bool)
    ensures
      OrIf(OrIf(OrIf(OrIf(OrIf(OrIf(OrIf(OrIf(0, b0, 0x01), b1, 0x02), b2, 0x04), b3, 0x08), b4, 0x10), b5, 0x20), b6, 0x40), b7, 0x80) ==
      Weight(b0, 0x01) + Weight(b1, 0x02) + Weight(b2, 0x04) + Weight(b3, 0x08) +
      Weight(b4, 0x10) + Weight(b5, 0x20) + Weight(b6, 0x40) + Weight(b7, 0x80)
  {
    Pow2Table();
    var x0 := OrIf(0, b0, 0x01);
    OrIfStep(0, b0, 0, 0x01);
    var x1 := OrIf(x0, b1, 0x02);
    OrIfStep(x0, b1, 1, 0x02);
    var x2 := OrIf(x1, b2, 0x04);
    OrIfStep(x1, b2, 2, 0x04);
    var x3 := OrIf(x2, b3, 0x08);
    OrIfStep(x2, b3, 3, 0x08);
    var x4 := OrIf(x3, b4, 0x10);
    OrIfStep(x3, b4, 4, 0x10);
    var x5 := OrIf(x4, b5, 0x20);
    OrIfStep(x4, b5, 5, 0x20);
    var x6 := OrIf(x5, b6, 0x40);
    OrIfStep(x5, b6, 6, 0x40);
    OrIfStep(x6, b7, 7, 0x80);
  }

  lemma OrChainValue(p: CharacteristicProperties)
    ensures OrChain(p) == BitsValue(p.AsBits()) < 256
  {
    EightOrs(p.broadcast, p.read, p.writeWithoutResponse, p.write, p.notify, p.indicate,
      p.authenticatedSignedWrites, p.extendedProperties);
    FlagsValue(p);
  }

  lemma BitsValueCons(x: bool, rest: seq<bool>)
    ensures BitsValue([x] + rest) == Weight(x, 1) + 2 * BitsValue(rest)
  {
    assert ([x] + rest)[1..] == rest;
  }

  /// The value of eight bits, bit 0 first.
  lemma EightBitsValue(b0: bool, b1: bool, b2: bool, b3: bool, b4: bool, b5: bool, b6: bool, b7: bool)
    ensures BitsValue([b0] + ([b1] + ([b2] + ([b3] + ([b4] + ([b5] + ([b6] + [b7]))))))) ==
      Weight(b0, 0x01) + Weight(b1, 0x02) + Weight(b2, 0x04) + Weight(b3, 0x08) +
      Weight(b4, 0x10) + Weight(b5, 0x20) + Weight(b6, 0x40) + Weight(b7, 0x80)
  {
    var s7: seq<bool> := [b7];
    BitsValueCons(b7, []);
    assert s7 == [b7] + [];
    var s6 := [b6] + s7;
    BitsValueCons(b6, s7);
    var s5 := [b5] + s6;
    BitsValueCons(b5, s6);
    var s4 := [b4] + s5;
    BitsValueCons(b4, s5);
    var s3 := [b3] + s4;
    BitsValueCons(b3, s4);
    var s2 := [b2] + s3;
    BitsValueCons(b2, s3);
    var s1 := [b1] + s2;
    BitsValueCons(b1, s2);
    BitsValueCons(b0, s1);
  }

  /// The value of the eight flags: each set flag adds its mask.
  lemma FlagsValue(p: CharacteristicProperties)
    ensures BitsValue(p.AsBits()) ==
      Weight(p.broadcast, 0x01) + Weight(p.read, 0x02) + Weight(p.writeWithoutResponse, 0x04) + Weight(p.write, 0x08) +
      Weight(p.notify, 0x10) + Weight(p.indicate, 0x20) + Weight(p.authenticatedSignedWrites, 0x40) +
      Weight(p.extendedProperties, 0x80)
  {
    EightBitsValue(p.broadcast, p.read, p.writeWithoutResponse, p.write, p.notify, p.indicate,
      p.authenticatedSignedWrites, p.extendedProperties);
  }

  /// Bits k..n-1 of `x`, lowest first.
  function BitsFrom(x: nat, i: nat, n: nat): seq<bool>
    requires i <= n
  {
    seq(n - i, k requires 0 <= k < n - i => Bit(x, i + k))
  }

  lemma BitsFromCons(x: nat, i: nat, n: nat)
    requires i < n
    ensures BitsFrom(x, i, n) == [Bit(x, i)] + BitsFrom(x, i + 1, n)
  {
    var l, r := BitsFrom(x, i, n), [Bit(x, i)] + BitsFrom(x, i + 1, n);
    assert |l| == |r|;
    forall k | 0 <= k < |l| ensures l[k] == r[k] {
      if k > 0 {
        assert r[k] == BitsFrom(x, i + 1, n)[k - 1];
      }
    }
  }

  /// The low eight bits of `x` are the flags `from_byte` reads.
  lemma FromByteBits(x: nat)
    ensures Bits(x, 8) == [Bit(x, 0)] + ([Bit(x, 1)] + ([Bit(x, 2)] + ([Bit(x, 3)] + ([Bit(x, 4)] +
      ([Bit(x, 5)] + ([Bit(x, 6)] + [Bit(x, 7)]))))))
  {
    assert BitsFrom(x, 8, 8) == [];
    BitsFromCons(x, 7, 8);
    assert BitsFrom(x, 7, 8) == [Bit(x, 7)];
    BitsFromCons(x, 6, 8);
    BitsFromCons(x, 5, 8);
    BitsFromCons(x, 4, 8);
    BitsFromCons(x, 3, 8);
    BitsFromCons(x, 2, 8);
    BitsFromCons(x, 1, 8);
    BitsFromCons(x, 0, 8);
    assert Bits(x, 8) == BitsFrom(x, 0, 8);
  }

  lemma FromByteAsBits(b: byte)
    ensures FromByte(b).AsBits() == Bits(b, 8)
  {
    FromByteBits(b);
  }

  lemma ByteBelowPow8(b: byte)
    ensures b % Pow2(8) == b
  {
    Pow2Table();
  }

  /// Every byte survives `to_byte(from_byte(b))`.
  lemma FromByteRoundTrip(b: byte)
    ensures BitsValue(FromByte(b).AsBits()) == b
  {
    FromByteAsBits(b);
    BitsValueOfBits(b, 8);
    ByteBelowPow8(b);
  }

  lemma ConsInjective(x: bool, s: seq<bool>, y: bool, t: seq<bool>)
    requires [x] + s == [y] + t
    ensures x == y && s == t
  {
    assert x == ([x] + s)[0];
    assert s == ([x] + s)[1..];
    assert t == ([y] + t)[1..];
  }

  /// Equal flag sequences come from equal flags.
  lemma AsBitsInjective(p: CharacteristicProperties, q: CharacteristicProperties)
    requires p.AsBits() == q.AsBits()
    ensures p == q
  {
    var s1 := [p.read] + ([p.writeWithoutResponse] + ([p.write] + ([p.notify] + ([p.indicate] +
      ([p.authenticatedSignedWrites] + [p.extendedProperties])))));
    var t1 := [q.read] + ([q.writeWithoutResponse] + ([q.write] + ([q.notify] + ([q.indicate] +
      ([q.authenticatedSignedWrites] + [q.extendedProperties])))));
    ConsInjective(p.broadcast, s1, q.broadcast, t1);
    var s2 := [p.writeWithoutResponse] + ([p.write] + ([p.notify] + ([p.indicate] +
      ([p.authenticatedSignedWrites] + [p.extendedProperties]))));
    var t2 := [q.writeWithoutResponse] + ([q.write] + ([q.notify] + ([q.indicate] +
      ([q.authenticatedSignedWrites] + [q.extendedProperties]))));
    ConsInjective(p.read, s2, q.read, t2);
    var s3 := [p.write] + ([p.notify] + ([p.indicate] + ([p.authenticatedSignedWrites] + [p.extendedProperties])));
    var t3 := [q.write] + ([q.notify] + ([q.indicate] + ([q.authenticatedSignedWrites] + [q.extendedProperties])));
    ConsInjective(p.writeWithoutResponse, s3, q.writeWithoutResponse, t3);
    var s4 := [p.notify] + ([p.indicate] + ([p.authenticatedSignedWrites] + [p.extendedProperties]));
    var t4 := [q.notify] + ([q.indicate] + ([q.authenticatedSignedWrites] + [q.extendedProperties]));
    ConsInjective(p.write, s4, q.write, t4);
    var s5 := [p.indicate] + ([p.authenticatedSignedWrites] + [p.extendedProperties]);
    var t5 := [q.indicate] + ([q.authenticatedSignedWrites] + [q.extendedProperties]);
    ConsInjective(p.notify, s5, q.notify, t5);
    var s6 := [p.authenticatedSignedWrites] + [p.extendedProperties];
    var t6 := [q.authenticatedSignedWrites] + [q.extendedProperties];
    ConsInjective(p.indicate, s6, q.indicate, t6);
    ConsInjective(p.authenticatedSignedWrites, [p.extendedProperties], q.authenticatedSignedWrites, [q.extendedProperties]);
    ConsInjective(p.extendedProperties, [], q.extendedProperties, []);
  }

  /// Every set of flags survives `from_byte(to_byte(p))`.
  lemma ToByteRoundTrip(p: CharacteristicProperties)
    ensures BitsValue(p.AsBits()) < 256 && FromByte(BitsValue(p.AsBits())) == p
  {
    var v := BitsValue(p.AsBits());
    OrChainValue(p);
    BitsOfBitsValue(p.AsBits());
    FromByteBits(v);
    AsBitsInjective(FromByte(v), p);
  }

  /// The flags of the unit test: 0x12 is read and notify, not write.
  lemma PropertiesExample()
    ensures FromByte(0x12).read && FromByte(0x12).notify && !FromByte(0x12).write
    ensures FromByte(0x02) == CharacteristicProperties(false, true, false, false, false, false, false, false)
  {
    Pow2Table();
  }

  /// The flag names, in bit order.
  function PropertyNames(): seq<string>
  {
    ["Broadcast"] + (["Read"] + (["Write Without Response"] + (["Write"] + (["Notify"] + (["Indicate"] +
      (["Authenticated Signed Writes"] + ["Extended Properties"]))))))
  }

  /// The names whose flag is set, in order.
  function Selected(flags: seq<bool>, names: seq<string>): seq<string>
    requires |flags| == |names|
  {
    if flags == [] then [] else (if flags[0] then [names[0]] else []) + Selected(flags[1..], names[1..])
  }

  /// The one-name list of a set flag.
  function Opt(flag: bool, name: string): seq<string>
  {
    if flag then [name] else []
  }

  /// The names of four flags, in order.
  function Opts4(b0: bool, b1: bool, b2: bool, b3: bool, n0: string, n1: string, n2: string, n3: string): seq<string>
  {
    Opt(b0, n0) + Opt(b1, n1) + Opt(b2, n2) + Opt(b3, n3)
  }

  /// The names of eight flags, written out in bit order.
  function Opts(b0: bool, b1: bool, b2: bool, b3: bool, b4: bool, b5: bool, b6: bool, b7: bool): seq<string>
  {
    Opts4(b0, b1, b2, b3, "Broadcast", "Read", "Write Without Response", "Write") +
    Opts4(b4, b5, b6, b7, "Notify", "Indicate", "Authenticated Signed Writes", "Extended Properties")
  }

  /// `properties_list`: the name of each set flag, in bit order.
  method PropertiesList(p: CharacteristicProperties) returns (props: seq<string>)
    ensures props == Selected(p.AsBits(), PropertyNames())
  {
    props := [];
    if p.broadcast {
      props := props + ["Broadcast"];
    }
    ghost var s0 := props;
    if p.read {
      props := props + ["Read"];
    }
    PushIf(s0, props, p.read, "Read");
    ghost var s1 := props;
    if p.writeWithoutResponse {
      props := props + ["Write Without Response"];
    }
    PushIf(s1, props, p.writeWithoutResponse, "Write Without Response");
    ghost var s2 := props;
    if p.write {
      props := props + ["Write"];
    }
    PushIf(s2, props, p.write, "Write");
    ghost var low := props;
    assert low == Opts4(p.broadcast, p.read, p.writeWithoutResponse, p.write, "Broadcast", "Read", "Write Without Response", "Write");
    if p.notify {
      props := props + ["Notify"];
    }
    PushIf(low, props, p.notify, "Notify");
    ghost var s4 := props;
    if p.indicate {
      props := props + ["Indicate"];
    }
    PushIf(s4, props, p.indicate, "Indicate");
    ghost var s5 := props;
    if p.authenticatedSignedWrites {
      props := props + ["Authenticated Signed Writes"];
    }
    PushIf(s5, props, p.authenticatedSignedWrites, "Authenticated Signed Writes");
    ghost var s6 := props;
    if p.extendedProperties {
      props := props + ["Extended Properties"];
    }
    PushIf(s6, props, p.extendedProperties, "Extended Properties");
    AppendFour(low, Opt(p.notify, "Notify"), Opt(p.indicate, "Indicate"),
      Opt(p.authenticatedSignedWrites, "Authenticated Signed Writes"), Opt(p.extendedProperties, "Extended Properties"));
    SelectedOfProperties(p);
  }

  /// One `if flag { props.push(name) }` appends the flag's one-name list.
  lemma PushIf(before: seq<string>, after: seq<string>, flag: bool, name: string)
    requires after == if flag then before + [name] else before
    ensures after == before + Opt(flag, name)
  {
  }

  /// The selected names of a set of flags, written out.
  lemma SelectedOfProperties(p: CharacteristicProperties)
    ensures Selected(p.AsBits(), PropertyNames()) == Opts(p.broadcast, p.read, p.writeWithoutResponse, p.write,
      p.notify, p.indicate, p.authenticatedSignedWrites, p.extendedProperties)
  {
    SelectedEight(p.broadcast, p.read, p.writeWithoutResponse, p.write, p.notify, p.indicate,
      p.authenticatedSignedWrites, p.extendedProperties);
  }

  lemma SelectedCons(flag: bool, flags: seq<bool>, name: string, names: seq<string>)
    requires |flags| == |names|
    ensures Selected([flag] + flags, [name] + names) == Opt(flag, name) + Selected(flags, names)
  {
    assert ([flag] + flags)[1..] == flags && ([name] + names)[1..] == names;
  }

  lemma AppendAssoc(a: seq<string>, b: seq<string>, c: seq<string>)
    ensures a + (b + c) == a + b + c
  {
  }

  lemma AppendFour(a: seq<string>, b: seq<string>, c: seq<string>, d: seq<string>, e: seq<string>)
    ensures a + b + c + d + e == a + (b + c + d + e)
  {
    AppendAssoc(a, b + c + d, e);
    AppendAssoc(a, b + c, d);
    AppendAssoc(a, b, c);
  }

  /// Four names before a tail, from the right-nested form.
  lemma NestedFour(a: seq<string>, b: seq<string>, c: seq<string>, d: seq<string>, e: seq<string>)
    ensures a + (b + (c + (d + e))) == a + b + c + d + e
  {
    AppendAssoc(c, d, e);
    AppendAssoc(b, c + d, e);
    AppendAssoc(b, c, d);
    AppendAssoc(a, b + c + d, e);
    AppendAssoc(a, b + c, d);
    AppendAssoc(a, b, c);
  }

  /// The selected names of eight flags, written out.
  lemma SelectedEight(b0: bool, b1: bool, b2: bool, b3: bool, b4: bool, b5: bool, b6: bool, b7: bool)
    ensures Selected([b0] + ([b1] + ([b2] + ([b3] + ([b4] + ([b5] + ([b6] + [b7])))))), PropertyNames()) ==
      Opts(b0, b1, b2, b3, b4, b5, b6, b7)
  {
    var n4, n5, n6, n7 := "Notify", "Indicate", "Authenticated Signed Writes", "Extended Properties";
    LastFour(b4, b5, b6, b7, n4, n5, n6, n7);
    FirstFour(b0, b1, b2, b3, "Broadcast", "Read", "Write Without Response", "Write",
      [b4] + ([b5] + ([b6] + [b7])), [n4] + ([n5] + ([n6] + [n7])));
  }

  /// The names selected by four flags in front of more.
  lemma FirstFour(b0: bool, b1: bool, b2: bool, b3: bool, n0: string, n1: string, n2: string, n3: string,
                  flags: seq<bool>, names: seq<string>)
    requires |flags| == |names|
    ensures Selected([b0] + ([b1] + ([b2] + ([b3] + flags))), [n0] + ([n1] + ([n2] + ([n3] + names)))) ==
      Opts4(b0, b1, b2, b3, n0, n1, n2, n3) + Selected(flags, names)
  {
    SelectedCons(b3, flags, n3, names);
    SelectedCons(b2, [b3] + flags, n2, [n3] + names);
    SelectedCons(b1, [b2] + ([b3] + flags), n1, [n2] + ([n3] + names));
    SelectedCons(b0, [b1] + ([b2] + ([b3] + flags)), n0, [n1] + ([n2] + ([n3] + names)));
    NestedFour(Opt(b0, n0), Opt(b1, n1), Opt(b2, n2), Opt(b3, n3), Selected(flags, names));
  }

  /// The names selected by the last four flags.
  lemma LastFour(b0: bool, b1: bool, b2: bool, b3: bool, n0: string, n1: string, n2: string, n3: string)
    ensures Selected([b0] + ([b1] + ([b2] + [b3])), [n0] + ([n1] + ([n2] + [n3]))) ==
      Opts4(b0, b1, b2, b3, n0, n1, n2, n3)
  {
    SelectedCons(b3, [], n3, []);
    assert [b3] + [] == [b3] && [n3] + [] == [n3];
    SelectedCons(b2, [b3], n2, [n3]);
    SelectedCons(b1, [b2] + [b3], n1, [n2] + [n3]);
    SelectedCons(b0, [b1] + ([b2] + [b3]), n0, [n1] + ([n2] + [n3]));
    NestedFour(Opt(b0, n0), Opt(b1, n1), Opt(b2, n2), Opt(b3, n3), []);
    assert Opts4(b0, b1, b2, b3, n0, n1, n2, n3) + [] == Opts4(b0, b1, b2, b3, n0, n1, n2, n3);
  }

  /// Membership in the names of four flags.
  lemma Opts4Has(x: string, b0: bool, b1: bool, b2: bool, b3: bool, n0: string, n1: string, n2: string, n3: string)
    ensures x in Opts4(b0, b1, b2, b3, n0, n1, n2, n3) <==>
      (b0 && x == n0) || (b1 && x == n1) || (b2 && x == n2) || (b3 && x == n3)
  {
  }

  /// The first four names are listed exactly when their flags are set, and
  /// none of the last four is.
  lemma LowNames(b0: bool, b1: bool, b2: bool, b3: bool)
    ensures var r := Opts4(b0, b1, b2, b3, "Broadcast", "Read", "Write Without Response", "Write");
      |r| <= 4 &&
      ("Broadcast" in r <==> b0) && ("Read" in r <==> b1) && ("Write Without Response" in r <==> b2) &&
      ("Write" in r <==> b3) && "Notify" !in r && "Indicate" !in r &&
      "Authenticated Signed Writes" !in r && "Extended Properties" !in r
  {
    var n0, n1, n2, n3 := "Broadcast", "Read", "Write Without Response", "Write";
    Opts4Has("Broadcast", b0, b1, b2, b3, n0, n1, n2, n3);
    Opts4Has("Read", b0, b1, b2, b3, n0, n1, n2, n3);
    Opts4Has("Write Without Response", b0, b1, b2, b3, n0, n1, n2, n3);
    Opts4Has("Write", b0, b1, b2, b3, n0, n1, n2, n3);
    Opts4Has("Notify", b0, b1, b2, b3, n0, n1, n2, n3);
    Opts4Has("Indicate", b0, b1, b2, b3, n0, n1, n2, n3);
    Opts4Has("Authenticated Signed Writes", b0, b1, b2, b3, n0, n1, n2, n3);
    Opts4Has("Extended Properties", b0, b1, b2, b3, n0, n1, n2, n3);
  }

  /// The last four names are listed exactly when their flags are set, and
  /// none of the first four is.
  lemma HighNames(b4: bool, b5: bool, b6: bool, b7: bool)
    ensures var r := Opts4(b4, b5, b6, b7, "Notify", "Indicate", "Authenticated Signed Writes", "Extended Properties");
      |r| <= 4 &&
      "Broadcast" !in r && "Read" !in r && "Write Without Response" !in r && "Write" !in r &&
      ("Notify" in r <==> b4) && ("Indicate" in r <==> b5) &&
      ("Authenticated Signed Writes" in r <==> b6) && ("Extended Properties" in r <==> b7)
  {
    var n4, n5, n6, n7 := "Notify", "Indicate", "Authenticated Signed Writes", "Extended Properties";
    Opts4Has("Broadcast", b4, b5, b6, b7, n4, n5, n6, n7);
    Opts4Has("Read", b4, b5, b6, b7, n4, n5, n6, n7);
    Opts4Has("Write Without Response", b4, b5, b6, b7, n4, n5, n6, n7);
    Opts4Has("Write", b4, b5, b6, b7, n4, n5, n6, n7);
    Opts4Has("Notify", b4, b5, b6, b7, n4, n5, n6, n7);
    Opts4Has("Indicate", b4, b5, b6, b7, n4, n5, n6, n7);
    Opts4Has("Authenticated Signed Writes", b4, b5, b6, b7, n4, n5, n6, n7);
    Opts4Has("Extended Properties", b4, b5, b6, b7, n4, n5, n6, n7);
  }

  /// Each of the eight names is listed exactly when its flag is set.
  lemma OptsNames(b0: bool, b1: bool, b2: bool, b3: bool, b4: bool, b5: bool, b6: bool, b7: bool)
    ensures var r := Opts(b0, b1, b2, b3, b4, b5, b6, b7);
      |r| <= 8 &&
      ("Broadcast" in r <==> b0) && ("Read" in r <==> b1) && ("Write Without Response" in r <==> b2) &&
      ("Write" in r <==> b3) && ("Notify" in r <==> b4) && ("Indicate" in r <==> b5) &&
      ("Authenticated Signed Writes" in r <==> b6) && ("Extended Properties" in r <==> b7)
  {
    LowNames(b0, b1, b2, b3);
    HighNames(b4, b5, b6, b7);
  }

  /// `properties_list` names exactly the set flags, at most eight of them.
  lemma PropertiesListNames(p: CharacteristicProperties)
    ensures var r := Selected(p.AsBits(), PropertyNames());
      |r| <= 8 &&
      ("Broadcast" in r <==> p.broadcast) && ("Read" in r <==> p.read) &&
      ("Write Without Response" in r <==> p.writeWithoutResponse) && ("Write" in r <==> p.write) &&
      ("Notify" in r <==> p.notify) && ("Indicate" in r <==> p.indicate) &&
      ("Authenticated Signed Writes" in r <==> p.authenticatedSignedWrites) &&
      ("Extended Properties" in r <==> p.extendedProperties)
  {
    SelectedOfProperties(p);
    OptsNames(p.broadcast, p.read, p.writeWithoutResponse, p.write, p.notify, p.indicate,
      p.authenticatedSignedWrites, p.extendedProperties);
  }

  /// The module's test: a read-only characteristic lists just "Read".
  lemma PropertiesListExample()
    ensures Selected(FromByte(0x02).AsBits(), PropertyNames()) == ["Read"]
  {
    PropertiesExample();
    SelectedOfProperties(FromByte(0x02));
    assert Opts(false, true, false, false, false, false, false, false) == ["Read"];
  }
}
