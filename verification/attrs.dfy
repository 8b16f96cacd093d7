/** A formatter's attributes as a fixed layout of slots. Meta, Link and Script
    each emit their attributes in a fixed order, every slot being one of: always
    present (`rel`, `src`), present when not None (`href`, `content`, ...), a bare
    word present when a flag is set (`defer`, `nomodule`), or a fixed pair present
    when a flag is set (`async="true"`).

    `Encode` lays the fields out as tokens; `Decode` reads them back. The two are
    proved inverse in both directions, once, for every layout whose slot names
    are distinct. */
module Attrs {

  import opened Wrappers
  import opened Text
  import opened Markup

  /** One slot of a fixed attribute order. */
  datatype Spec =
    | Required(key: string)
    | Optional(key: string)
    | Word(word: string)
    | Switch(key: string, on: string)

  /** The value held for one slot. */
  datatype Field = Given(s: string) | Maybe(o: Option<string>) | Toggle(flag: bool)

  function Name(sp: Spec): string
  {
    match sp
    case Required(k) => k
    case Optional(k) => k
    case Word(w) => w
    case Switch(k, _) => k
  }

  function TokenName(t: Token): string
  {
    match t
    case Pair(k, _) => k
    case Bare(w) => w
  }

  predicate Fits(sp: Spec, f: Field)
  {
    match sp
    case Required(_) => f.Given?
    case Optional(_) => f.Maybe?
    case Word(_) => f.Toggle?
    case Switch(_, _) => f.Toggle?
  }

  predicate FitsAll(layout: seq<Spec>, fs: seq<Field>)
  {
    |layout| == |fs| && forall i :: 0 <= i < |fs| ==> Fits(layout[i], fs[i])
  }

  /** No slot of `layout` is called `n`. */
  predicate Unused(n: string, layout: seq<Spec>)
  {
    |layout| == 0 || (Name(layout[0]) != n && Unused(n, layout[1..]))
  }

  /** All slot names differ. */
  predicate Distinct(layout: seq<Spec>)
  {
    |layout| == 0 || (Unused(Name(layout[0]), layout[1..]) && Distinct(layout[1..]))
  }

  /** Slot names are attribute words and the fixed values of switches are plain. */
  predicate GoodLayout(layout: seq<Spec>)
  {
    |layout| == 0 ||
    (IsWord(Name(layout[0])) &&
     (layout[0].Switch? ==> IsValue(layout[0].on) && ' ' !in layout[0].on && '\n' !in layout[0].on) &&
     GoodLayout(layout[1..]))
  }

  /** `names` lists the slot names of `layout`, in order. */
  predicate NamedAs(layout: seq<Spec>, names: seq<string>)
  {
    |layout| == |names| && forall i :: 0 <= i < |layout| ==> Name(layout[i]) == names[i]
  }

  predicate NoRepeats(names: seq<string>)
  {
    forall i, j :: 0 <= i < j < |names| ==> names[i] != names[j]
  }

  /** The fixed value of a switch is plain. */
  predicate PlainValue(v: string)
  {
    IsValue(v) && ' ' !in v && '\n' !in v
  }

  /** A layout is distinct when its list of names has no repeat; checking the
      list is much cheaper than unfolding `Distinct` on a literal layout. */
  lemma {:induction false} DistinctByNames(layout: seq<Spec>, names: seq<string>)
    requires NamedAs(layout, names) && NoRepeats(names)
    ensures Distinct(layout)
    decreases |layout|
  {
    if |layout| > 0 {
      assert NamedAs(layout[1..], names[1..]);
      UnusedByNames(names[0], layout[1..], names[1..]);
      DistinctByNames(layout[1..], names[1..]);
    }
  }

  lemma {:induction false} UnusedByNames(n: string, layout: seq<Spec>, names: seq<string>)
    requires NamedAs(layout, names) && n !in names
    ensures Unused(n, layout)
    decreases |layout|
  {
    if |layout| > 0 {
      assert names[0] in names;
      assert NamedAs(layout[1..], names[1..]);
      assert forall x :: x in names[1..] ==> x in names;
      UnusedByNames(n, layout[1..], names[1..]);
    }
  }

  /** The same for `GoodLayout`, from facts about each name. */
  lemma {:induction false} GoodByNames(layout: seq<Spec>, names: seq<string>)
    requires NamedAs(layout, names)
    requires forall i :: 0 <= i < |names| ==> IsWord(names[i])
    requires forall i :: 0 <= i < |layout| ==> layout[i].Switch? ==> PlainValue(layout[i].on)
    ensures GoodLayout(layout)
    decreases |layout|
  {
    if |layout| > 0 {
      assert NamedAs(layout[1..], names[1..]);
      assert IsWord(names[0]);
      GoodByNames(layout[1..], names[1..]);
    }
  }

  // ---------------------------------------------------------------------------
  // Field values

  predicate FieldQuoteFree(f: Field)
  {
    match f
    case Given(s) => IsValue(s)
    case Maybe(o) => o.Some? ==> IsValue(o.value)
    case Toggle(_) => true
  }

  predicate FieldSpaceGtFree(f: Field)
  {
    match f
    case Given(s) => NoOcc(s, " >")
    case Maybe(o) => o.Some? ==> NoOcc(o.value, " >")
    case Toggle(_) => true
  }

  predicate FieldOneLine(f: Field)
  {
    match f
    case Given(s) => '\n' !in s
    case Maybe(o) => o.Some? ==> '\n' !in o.value
    case Toggle(_) => true
  }

  /** No value holds a newline. */
  predicate OneLine(fs: seq<Field>)
  {
    forall i :: 0 <= i < |fs| ==> FieldOneLine(fs[i])
  }

  /** Every value is free of double quotes, so the reader can find its end. */
  predicate QuoteFree(fs: seq<Field>)
  {
    forall i :: 0 <= i < |fs| ==> FieldQuoteFree(fs[i])
  }

  /** No value contains `" >"`, so the Link/Script rewrite leaves it alone. */
  predicate SpaceGtFree(fs: seq<Field>)
  {
    forall i :: 0 <= i < |fs| ==> FieldSpaceGtFree(fs[i])
  }

  // ---------------------------------------------------------------------------
  // Writing and reading

  function EncodeOne(sp: Spec, f: Field): seq<Token>
  {
    match sp
    case Required(k) => if f.Given? then [Pair(k, f.s)] else []
    case Optional(k) => if f.Maybe? then Opt(k, f.o) else []
    case Word(w) => if f.Toggle? then Flag(w, f.flag) else []
    case Switch(k, v) => if f.Toggle? && f.flag then [Pair(k, v)] else []
  }

  /** The attribute tokens, slot by slot, in layout order. */
  function Encode(layout: seq<Spec>, fs: seq<Field>): seq<Token>
    requires |layout| == |fs|
  {
    if |layout| == 0 then [] else EncodeOne(layout[0], fs[0]) + Encode(layout[1..], fs[1..])
  }

  function Cons(f: Field, rest: Option<seq<Field>>): Option<seq<Field>>
  {
    match rest
    case Some(fs) => Some([f] + fs)
    case None => None
  }

  /** Reads tokens back into one field per slot; fails on anything `Encode`
      cannot have produced. */
  function Decode(layout: seq<Spec>, ts: seq<Token>): (r: Option<seq<Field>>)
    ensures r.Some? ==> FitsAll(layout, r.value)
    decreases |layout|
  {
    if |layout| == 0 then (if |ts| == 0 then Some([]) else None)
    else
      var hit := |ts| > 0 && ts[0].Pair? && ts[0].key == Name(layout[0]);
      var r := match layout[0]
        case Required(_) =>
          if hit then Cons(Given(ts[0].value), Decode(layout[1..], ts[1..])) else None
        case Optional(_) =>
          if hit then Cons(Maybe(Some(ts[0].value)), Decode(layout[1..], ts[1..]))
          else Cons(Maybe(None), Decode(layout[1..], ts))
        case Word(w) =>
          if |ts| > 0 && ts[0] == Bare(w) then Cons(Toggle(true), Decode(layout[1..], ts[1..]))
          else Cons(Toggle(false), Decode(layout[1..], ts))
        case Switch(k, v) =>
          if |ts| > 0 && ts[0] == Pair(k, v) then Cons(Toggle(true), Decode(layout[1..], ts[1..]))
          else Cons(Toggle(false), Decode(layout[1..], ts));
      r
  }

  // ---------------------------------------------------------------------------
  // Decode and Encode are inverse

  /** The first token written is named after one of the layout's slots. */
  lemma {:induction false} HeadNamed(layout: seq<Spec>, fs: seq<Field>)
    requires |layout| == |fs|
    requires |Encode(layout, fs)| > 0
    ensures !Unused(TokenName(Encode(layout, fs)[0]), layout)
    decreases |layout|
  {
    var one := EncodeOne(layout[0], fs[0]);
    if |one| > 0 {
      assert Encode(layout, fs)[0] == one[0];
      assert TokenName(one[0]) == Name(layout[0]);
    } else {
      assert Encode(layout, fs) == Encode(layout[1..], fs[1..]);
      HeadNamed(layout[1..], fs[1..]);
    }
  }

  /** Whatever `Decode` accepts, `Encode` writes back exactly. */
  lemma {:induction false} EncodeDecode(layout: seq<Spec>, ts: seq<Token>)
    requires Decode(layout, ts).Some?
    ensures Encode(layout, Decode(layout, ts).value) == ts
    decreases |layout|
  {
    if |layout| > 0 {
      var fs := Decode(layout, ts).value;
      if |ts| > 0 && EncodeOne(layout[0], fs[0]) == [ts[0]] {
        assert Decode(layout[1..], ts[1..]).Some? && fs[1..] == Decode(layout[1..], ts[1..]).value by {
          DecodeStep(layout, ts);
        }
        EncodeDecode(layout[1..], ts[1..]);
        assert [ts[0]] + ts[1..] == ts;
      } else {
        assert Decode(layout[1..], ts).Some? && fs[1..] == Decode(layout[1..], ts).value by {
          DecodeStep(layout, ts);
        }
        EncodeDecode(layout[1..], ts);
      }
    }
  }

  /** One step of `Decode`: the first slot takes the first token, and writes it
      back, or takes none and writes nothing. */
  lemma DecodeStep(layout: seq<Spec>, ts: seq<Token>)
    requires |layout| > 0 && Decode(layout, ts).Some?
    ensures var fs := Decode(layout, ts).value;
            if |ts| > 0 && EncodeOne(layout[0], fs[0]) == [ts[0]] then
              Decode(layout[1..], ts[1..]).Some? && fs[1..] == Decode(layout[1..], ts[1..]).value
            else
              EncodeOne(layout[0], fs[0]) == [] &&
              Decode(layout[1..], ts).Some? && fs[1..] == Decode(layout[1..], ts).value
  {
    var fs := Decode(layout, ts).value;
    match layout[0]
    case Required(k) =>
      assert EncodeOne(layout[0], fs[0]) == [ts[0]];
    case Optional(k) =>
    case Word(w) =>
    case Switch(k, v) =>
  }

  /** Reading back what `Encode` wrote gives the fields, for distinct slot names. */
  lemma {:induction false} DecodeEncode(layout: seq<Spec>, fs: seq<Field>)
    requires FitsAll(layout, fs)
    requires Distinct(layout)
    ensures Decode(layout, Encode(layout, fs)) == Some(fs)
    decreases |layout|
  {
    if |layout| > 0 {
      var rest := Encode(layout[1..], fs[1..]);
      FitsTail(layout, fs);
      DecodeEncode(layout[1..], fs[1..]);
      if |rest| > 0 {
        HeadNamed(layout[1..], fs[1..]);
      }
      DecodeOne(layout, fs, rest);
    }
  }

  lemma FitsTail(layout: seq<Spec>, fs: seq<Field>)
    requires FitsAll(layout, fs) && |layout| > 0
    ensures FitsAll(layout[1..], fs[1..]) && Fits(layout[0], fs[0])
    ensures Encode(layout, fs) == EncodeOne(layout[0], fs[0]) + Encode(layout[1..], fs[1..])
  {
    forall i | 0 <= i < |fs[1..]| ensures Fits(layout[1..][i], fs[1..][i]) {
      assert Fits(layout[i + 1], fs[i + 1]);
    }
    assert Fits(layout[0], fs[0]);
  }

  /** One step of reading back: the first slot takes back what it wrote, and
      leaves the rest, whose head is not named after it, to the other slots. */
  lemma DecodeOne(layout: seq<Spec>, fs: seq<Field>, rest: seq<Token>)
    requires FitsAll(layout, fs) && |layout| > 0
    requires Decode(layout[1..], rest) == Some(fs[1..])
    requires |rest| > 0 ==> !Unused(TokenName(rest[0]), layout[1..])
    requires Unused(Name(layout[0]), layout[1..])
    ensures Decode(layout, EncodeOne(layout[0], fs[0]) + rest) == Some(fs)
  {
    var one := EncodeOne(layout[0], fs[0]);
    var ts := one + rest;
    assert Fits(layout[0], fs[0]);
    assert [fs[0]] + fs[1..] == fs;
    if |one| > 0 {
      assert |one| == 1 && ts[0] == one[0] && ts[1..] == rest;
      DecodeTaken(layout, ts, fs[0]);
    } else {
      assert ts == rest;
      assert |rest| > 0 ==> TokenName(rest[0]) != Name(layout[0]);
      DecodeSkipped(layout, ts, fs[0]);
    }
  }

  /** A slot that wrote a token takes it back. */
  lemma DecodeTaken(layout: seq<Spec>, ts: seq<Token>, f: Field)
    requires |layout| > 0 && Fits(layout[0], f) && |ts| > 0 && EncodeOne(layout[0], f) == [ts[0]]
    ensures Decode(layout, ts) == Cons(f, Decode(layout[1..], ts[1..]))
  {
    var t := EncodeOne(layout[0], f)[0];
    assert t == ts[0];
    match layout[0]
    case Required(k) =>
      assert t == Pair(k, f.s) && f == Given(f.s);
    case Optional(k) =>
      assert t == Pair(k, f.o.value) && f == Maybe(Some(f.o.value));
    case Word(w) =>
      assert t == Bare(w) && f == Toggle(true);
    case Switch(k, v) =>
      assert t == Pair(k, v) && f == Toggle(true);
  }

  /** A slot that wrote nothing takes nothing, when the next token is not
      named after it. */
  lemma DecodeSkipped(layout: seq<Spec>, ts: seq<Token>, f: Field)
    requires |layout| > 0 && Fits(layout[0], f) && EncodeOne(layout[0], f) == []
    requires |ts| > 0 ==> TokenName(ts[0]) != Name(layout[0])
    requires !layout[0].Required?
    ensures Decode(layout, ts) == Cons(f, Decode(layout[1..], ts))
  {
    match layout[0]
    case Optional(k) =>
    case Word(w) =>
    case Switch(k, v) =>
  }

  /** The two directions together: `Decode` accepts exactly the token lists
      `Encode` writes, and returns the fields they were written from. */
  lemma DecodeIff(layout: seq<Spec>, fs: seq<Field>, ts: seq<Token>)
    requires Distinct(layout)
    ensures Decode(layout, ts) == Some(fs) <==> FitsAll(layout, fs) && Encode(layout, fs) == ts
  {
    if Decode(layout, ts) == Some(fs) {
      EncodeDecode(layout, ts);
    }
    if FitsAll(layout, fs) && Encode(layout, fs) == ts {
      DecodeEncode(layout, fs);
    }
  }

  // ---------------------------------------------------------------------------
  // What the written tokens look like

  lemma AllWellFormedConcat(a: seq<Token>, b: seq<Token>)
    requires AllWellFormed(a) && AllWellFormed(b)
    ensures AllWellFormed(a + b)
  {
    forall i | 0 <= i < |a + b| ensures WellFormed((a + b)[i]) {
      if i < |a| {
        assert (a + b)[i] == a[i];
      } else {
        assert (a + b)[i] == b[i - |a|];
      }
    }
  }

  lemma NoSpaceGtConcat(a: seq<Token>, b: seq<Token>)
    requires NoSpaceGtValues(a) && NoSpaceGtValues(b)
    ensures NoSpaceGtValues(a + b)
  {
    forall i | 0 <= i < |a + b| ensures (a + b)[i].Pair? ==> NoOcc((a + b)[i].value, " >") {
      if i < |a| {
        assert (a + b)[i] == a[i];
      } else {
        assert (a + b)[i] == b[i - |a|];
      }
    }
  }

  /** With word names and quote-free values, every written token is one the
      reader accepts. */
  lemma {:induction false} EncodeWellFormed(layout: seq<Spec>, fs: seq<Field>)
    requires FitsAll(layout, fs) && GoodLayout(layout) && QuoteFree(fs)
    ensures AllWellFormed(Encode(layout, fs))
    decreases |layout|
  {
    if |layout| > 0 {
      assert FitsAll(layout[1..], fs[1..]) && QuoteFree(fs[1..]) by {
        forall i | 0 <= i < |fs[1..]| ensures Fits(layout[1..][i], fs[1..][i]) && FieldQuoteFree(fs[1..][i]) {
          assert Fits(layout[i + 1], fs[i + 1]) && FieldQuoteFree(fs[i + 1]);
        }
      }
      EncodeWellFormed(layout[1..], fs[1..]);
      assert FieldQuoteFree(fs[0]);
      assert AllWellFormed(EncodeOne(layout[0], fs[0]));
      AllWellFormedConcat(EncodeOne(layout[0], fs[0]), Encode(layout[1..], fs[1..]));
    }
  }

  lemma AllWellFormedSplit(a: seq<Token>, b: seq<Token>)
    requires AllWellFormed(a + b)
    ensures AllWellFormed(a) && AllWellFormed(b)
  {
    forall i | 0 <= i < |a| ensures WellFormed(a[i]) {
      assert (a + b)[i] == a[i];
    }
    forall i | 0 <= i < |b| ensures WellFormed(b[i]) {
      assert (a + b)[i + |a|] == b[i];
    }
  }

  /** The converse of `EncodeWellFormed`: tokens the reader accepts come from
      quote-free values. */
  lemma {:induction false} WellFormedQuoteFree(layout: seq<Spec>, fs: seq<Field>)
    requires FitsAll(layout, fs) && AllWellFormed(Encode(layout, fs))
    ensures QuoteFree(fs)
    decreases |layout|
  {
    if |layout| > 0 {
      var one := EncodeOne(layout[0], fs[0]);
      AllWellFormedSplit(one, Encode(layout[1..], fs[1..]));
      assert FitsAll(layout[1..], fs[1..]) by {
        forall i | 0 <= i < |fs[1..]| ensures Fits(layout[1..][i], fs[1..][i]) {
          assert Fits(layout[i + 1], fs[i + 1]);
        }
      }
      WellFormedQuoteFree(layout[1..], fs[1..]);
      assert Fits(layout[0], fs[0]);
      if |one| > 0 {
        assert WellFormed(one[0]);
      }
      assert FieldQuoteFree(fs[0]);
      forall i | 0 <= i < |fs| ensures FieldQuoteFree(fs[i]) {
        if i > 0 {
          assert fs[i] == fs[1..][i - 1];
        }
      }
    }
  }

  /** Values free of `" >"` give tokens free of it. */
  lemma {:induction false} EncodeSpaceGtFree(layout: seq<Spec>, fs: seq<Field>)
    requires FitsAll(layout, fs) && GoodLayout(layout) && SpaceGtFree(fs)
    ensures NoSpaceGtValues(Encode(layout, fs))
    decreases |layout|
  {
    if |layout| > 0 {
      assert FitsAll(layout[1..], fs[1..]) && SpaceGtFree(fs[1..]) by {
        forall i | 0 <= i < |fs[1..]| ensures Fits(layout[1..][i], fs[1..][i]) && FieldSpaceGtFree(fs[1..][i]) {
          assert Fits(layout[i + 1], fs[i + 1]) && FieldSpaceGtFree(fs[i + 1]);
        }
      }
      EncodeSpaceGtFree(layout[1..], fs[1..]);
      assert FieldSpaceGtFree(fs[0]);
      if layout[0].Switch? && fs[0].flag {
        NoSpaceNoOcc(layout[0].on);
      }
      assert NoSpaceGtValues(EncodeOne(layout[0], fs[0]));
      NoSpaceGtConcat(EncodeOne(layout[0], fs[0]), Encode(layout[1..], fs[1..]));
    }
  }

  /** Newline-free values under word names give newline-free fragments. */
  lemma {:induction false} EncodeOneLine(layout: seq<Spec>, fs: seq<Field>)
    requires FitsAll(layout, fs) && GoodLayout(layout) && OneLine(fs)
    ensures forall i :: 0 <= i < |Encode(layout, fs)| ==> '\n' !in TokenText(Encode(layout, fs)[i])
    decreases |layout|
  {
    if |layout| > 0 {
      assert FitsAll(layout[1..], fs[1..]) && OneLine(fs[1..]) by {
        forall i | 0 <= i < |fs[1..]| ensures Fits(layout[1..][i], fs[1..][i]) && FieldOneLine(fs[1..][i]) {
          assert Fits(layout[i + 1], fs[i + 1]) && FieldOneLine(fs[i + 1]);
        }
      }
      EncodeOneLine(layout[1..], fs[1..]);
      assert FieldOneLine(fs[0]);
      var head := EncodeOne(layout[0], fs[0]);
      var tail := Encode(layout[1..], fs[1..]);
      forall i | 0 <= i < |head| ensures '\n' !in TokenText(head[i]) {
        WordCharsAt(Name(layout[0]), 0);
      }
      forall i | 0 <= i < |head + tail| ensures '\n' !in TokenText((head + tail)[i]) {
        if i >= |head| {
          assert (head + tail)[i] == tail[i - |head|];
        }
      }
    }
  }

  /** Writing one more slot at the end appends its tokens. */
  lemma {:induction false} EncodeSnoc(layout: seq<Spec>, fs: seq<Field>, sp: Spec, f: Field)
    requires |layout| == |fs|
    ensures Encode(layout + [sp], fs + [f]) == Encode(layout, fs) + EncodeOne(sp, f)
    decreases |layout|
  {
    if |layout| == 0 {
      assert layout + [sp] == [sp] && fs + [f] == [f];
    } else {
      assert (layout + [sp])[1..] == layout[1..] + [sp];
      assert (fs + [f])[1..] == fs[1..] + [f];
      EncodeSnoc(layout[1..], fs[1..], sp, f);
    }
  }

  /** The first slot's tokens, then the rest. */
  lemma EncodeCons(sp: Spec, f: Field, layout: seq<Spec>, fs: seq<Field>)
    requires |layout| == |fs|
    ensures Encode([sp] + layout, [f] + fs) == EncodeOne(sp, f) + Encode(layout, fs)
  {
    assert ([sp] + layout)[0] == sp && ([sp] + layout)[1..] == layout;
    assert ([f] + fs)[0] == f && ([f] + fs)[1..] == fs;
  }

  /** Slots that each write nothing write nothing together. */
  lemma {:induction false} EncodeUnset(layout: seq<Spec>, fs: seq<Field>)
    requires |layout| == |fs|
    requires forall i :: 0 <= i < |fs| ==> EncodeOne(layout[i], fs[i]) == []
    ensures Encode(layout, fs) == []
    decreases |layout|
  {
    if |layout| > 0 {
      assert EncodeOne(layout[0], fs[0]) == [];
      EncodeUnset(layout[1..], fs[1..]);
    }
  }

  /** A layout that starts with a required slot always writes at least one token. */
  lemma EncodeNonEmpty(layout: seq<Spec>, fs: seq<Field>)
    requires FitsAll(layout, fs) && |layout| > 0 && layout[0].Required?
    ensures |Encode(layout, fs)| > 0
    ensures Encode(layout, fs)[0] == Pair(layout[0].key, fs[0].s)
  {
    assert Fits(layout[0], fs[0]);
  }

  /** The slots from `i` on write slot `i`'s tokens, then the rest. */
  lemma EncodeFrom(ly: seq<Spec>, fs: seq<Field>, i: nat, rest: seq<Token>) returns (r: seq<Token>)
    requires |ly| == |fs| && i < |ly|
    requires Encode(ly[i+1..], fs[i+1..]) == rest
    ensures r == EncodeOne(ly[i], fs[i]) + rest
    ensures Encode(ly[i..], fs[i..]) == r
  {
    assert ly[i..][1..] == ly[i+1..] && fs[i..][1..] == fs[i+1..];
    r := EncodeOne(ly[i], fs[i]) + rest;
  }

  /** A six-slot layout writes its slots' tokens in order. */
  lemma EncodeSix(ly: seq<Spec>, fs: seq<Field>)
    requires |ly| == 6 && |fs| == 6
    ensures Encode(ly, fs) == EncodeOne(ly[0], fs[0]) + (EncodeOne(ly[1], fs[1]) + (EncodeOne(ly[2], fs[2]) + (EncodeOne(ly[3], fs[3]) + (EncodeOne(ly[4], fs[4]) + (EncodeOne(ly[5], fs[5]))))))
  {
    var e5 := EncodeFrom(ly, fs, 5, []);
    var e4 := EncodeFrom(ly, fs, 4, e5);
    var e3 := EncodeFrom(ly, fs, 3, e4);
    var e2 := EncodeFrom(ly, fs, 2, e3);
    var e1 := EncodeFrom(ly, fs, 1, e2);
    var e0 := EncodeFrom(ly, fs, 0, e1);
    assert e5 == EncodeOne(ly[5], fs[5]);
    assert ly[0..] == ly && fs[0..] == fs;
  }

  /** A nine-slot layout writes its slots' tokens in order. */
  lemma EncodeNine(ly: seq<Spec>, fs: seq<Field>)
    requires |ly| == 9 && |fs| == 9
    ensures Encode(ly, fs) == EncodeOne(ly[0], fs[0]) + (EncodeOne(ly[1], fs[1]) + (EncodeOne(ly[2], fs[2]) + (EncodeOne(ly[3], fs[3]) + (EncodeOne(ly[4], fs[4]) + (EncodeOne(ly[5], fs[5]) + (EncodeOne(ly[6], fs[6]) + (EncodeOne(ly[7], fs[7]) + (EncodeOne(ly[8], fs[8])))))))))
  {
    var e8 := EncodeFrom(ly, fs, 8, []);
    var e7 := EncodeFrom(ly, fs, 7, e8);
    var e6 := EncodeFrom(ly, fs, 6, e7);
    var e5 := EncodeFrom(ly, fs, 5, e6);
    var e4 := EncodeFrom(ly, fs, 4, e5);
    var e3 := EncodeFrom(ly, fs, 3, e4);
    var e2 := EncodeFrom(ly, fs, 2, e3);
    var e1 := EncodeFrom(ly, fs, 1, e2);
    var e0 := EncodeFrom(ly, fs, 0, e1);
    assert e8 == EncodeOne(ly[8], fs[8]);
    assert ly[0..] == ly && fs[0..] == fs;
  }
}
