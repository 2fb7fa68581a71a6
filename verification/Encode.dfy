/** Writing a set of instructions back in a given order (src/transform.c, instr_set_encode_order). */
module Encode {
  import opened Words
  import opened Instrs
  import opened Orders
  import opened Codes
  import opened Patches
  import opened Scan

  /** The return code and the bytes after encoding the instructions l one after another from place
      `at` on, with start as the address of the first and end as the address not to pass. */
  ghost function Encoded(isa: Isa, text: seq<byte>, at: Option<nat>, l: seq<Instr>, start: u64, end: u64)
    : (r: (Rc, seq<byte>))
    ensures |r.1| == |text|
    decreases |l|
  {
    if l == [] then (Success, text)
    else if isa.encode(l[0]).None? then (ETransform, text)
    else
      var code := isa.encode(l[0]).value;
      if at.None? || at.value + |code| > |text| then (Undefined, text)
      else
        var text' := Splice(text, Patch(at.value, code));
        var start' := (start + |code|) % WORD;
        if start' > end then (ETransform, text')
        else Encoded(isa, text', Some(at.value + |code|), l[1..], start', end)
  }

  method WriteCode(text: array<byte>, at: nat, code: seq<byte>)
    requires at + |code| <= text.Length
    modifies text
    ensures text[..] == Splice(old(text[..]), Patch(at, code))
  {
    forall k | 0 <= k < |code| {
      text[at + k] := code[k];
    }
  }

  /** instrs filled so that entry order[i] is instruction i. */
  method Arrange(l: seq<Instr>, order: array<int>) returns (instrs: array<Instr>)
    requires IsPerm(order[..]) && order.Length == |l|
    ensures fresh(instrs) && instrs[..] == Place(l, order[..])
  {
    instrs := new Instr[|l|];
    for i := 0 to |l|
      invariant forall k :: 0 <= k < i ==> instrs[order[..][k]] == l[k]
    {
      assert order[i] == order[..][i];
      instrs[order[i]] := l[i];
    }
    PlaceUnique(l, order[..], instrs[..]);
  }

  method EncodeOrder(isa: Isa, s: InstrSet, text: array<byte>, target: Option<nat>, order: array<int>)
    returns (rc: Rc)
    requires IsPerm(order[..]) && order.Length == |s.instrs|
    modifies text
    ensures (rc, text[..])
         == Encoded(isa, old(text[..]), target, Place(s.instrs, order[..]), s.start, s.end)
  {
    var instrs := Arrange(s.instrs, order);
    ghost var l := instrs[..];
    var orig: u64 := s.start;
    var walk: Option<nat> := target;
    var i := 0;
    assert l[0..] == l;
    while i < |s.instrs|
      invariant i <= |s.instrs| == instrs.Length && instrs[..] == l
      invariant Encoded(isa, text[..], walk, l[i..], orig, s.end)
             == Encoded(isa, old(text[..]), target, l, s.start, s.end)
      invariant i < |s.instrs| || l[i..] == []
    {
      var instr := instrs[i];
      assert l[i..][0] == instr && l[i..][1..] == l[i + 1..];
      var code := isa.encode(instr);
      if code.None? {
        return ETransform;
      }
      if walk.None? || walk.value + |code.value| > text.Length {
        return Undefined;
      }
      WriteCode(text, walk.value, code.value);
      walk := Some(walk.value + |code.value|);
      orig := (orig + |code.value|) % WORD;
      if orig > s.end {
        return ETransform;
      }
      i := i + 1;
    }
    rc := Success;
  }

  /** Instructions of the set's exact length refill it exactly: no error return is taken, every
      part written ends at or before the end of the set, and the whole is one patch. */
  lemma {:induction false} ExactRefill(isa: Isa, text: seq<byte>, at: nat, l: seq<Instr>, start: u64, end: u64)
    requires AllKnown(isa, l)
    requires start + |Flat(l)| == end && at + |Flat(l)| <= |text|
    ensures Encoded(isa, text, Some(at), l, start, end) == (Success, Splice(text, Patch(at, Flat(l))))
    ensures forall k :: 0 <= k <= |l| ==> start + |Flat(l[..k])| <= end
    decreases |l|
  {
    PrefixesFit(l, start, end);
    if l == [] {
      assert Splice(text, Patch(at, [])) == text;
    } else {
      var code, rest := l[0].raw, Flat(l[1..]);
      assert Flat(l) == code + rest;
      hide Splice, Flat, Encoded;
      EncodeOne(isa, text, at, l, start, end);
      ExactRefill(isa, Splice(text, Patch(at, code)), at + |code|, l[1..], start + |code|, end);
      SpliceTwice(text, at, code, rest);
    }
  }

  lemma EncodeOne(isa: Isa, text: seq<byte>, at: nat, l: seq<Instr>, start: u64, end: u64)
    requires l != [] && Known(isa, l[0])
    requires start + |l[0].raw| <= end && at + |l[0].raw| <= |text|
    ensures Encoded(isa, text, Some(at), l, start, end)
         == Encoded(isa, Splice(text, Patch(at, l[0].raw)), Some(at + |l[0].raw|), l[1..],
                    start + |l[0].raw|, end)
  {
  }

  lemma PrefixesFit(l: seq<Instr>, start: u64, end: u64)
    requires start + |Flat(l)| == end
    ensures forall k :: 0 <= k <= |l| ==> start + |Flat(l[..k])| <= end
  {
    forall k | 0 <= k <= |l|
      ensures start + |Flat(l[..k])| <= end
    {
      FlatSplit(l, k);
    }
  }

  lemma SpliceTwice<T>(s: seq<T>, at: nat, a: seq<T>, b: seq<T>)
    requires at + |a| + |b| <= |s|
    ensures Splice(Splice(s, Patch(at, a)), Patch(at + |a|, b)) == Splice(s, Patch(at, a + b))
  {
  }

  function Join(codes: seq<seq<byte>>): seq<byte> {
    if codes == [] then [] else codes[0] + Join(codes[1..])
  }

  /** What encoding comes to, told by the codes written. They are those of the first instructions, one
      after the other from place `at` on. All but the last have ended at or before the end. Then either
      all instructions are written and the last ended in time too, or it ended too late, or the next
      instruction does not encode, or its code has no place in the buffer. */
  ghost predicate EncodedAs(isa: Isa, text: seq<byte>, at: Option<nat>, l: seq<Instr>, start: u64, end: u64,
                            r: (Rc, seq<byte>), codes: seq<seq<byte>>) {
    var n := |codes|;
    && n <= |l| && (forall k :: 0 <= k < n ==> isa.encode(l[k]) == Some(codes[k]))
    && (n > 0 ==> at.Some? && at.value + |Join(codes)| <= |text|)
    && r.1 == (if n > 0 then text[..at.value] + Join(codes) + text[at.value + |Join(codes)|..] else text)
    && (forall k :: 0 < k < n ==> InTime(start, codes[..k], end))
    && var late := n > 0 && !InTime(start, codes, end);
       if late then r.0 == ETransform
       else if n == |l| then r.0 == Success
       else if isa.encode(l[n]).None? then r.0 == ETransform
       else
         && r.0 == Undefined
         && (at.None? || at.value + |Join(codes)| + |isa.encode(l[n]).value| > |text|)
  }

  /** The codes, put at address start, end at or before address end. */
  ghost predicate InTime(start: u64, codes: seq<seq<byte>>, end: u64) {
    (start + |Join(codes)|) % 0x1_0000_0000_0000_0000 <= end
  }

  lemma {:induction false} EncodedExactly(isa: Isa, text: seq<byte>, at: Option<nat>, l: seq<Instr>,
                                          start: u64, end: u64) returns (codes: seq<seq<byte>>)
    ensures EncodedAs(isa, text, at, l, start, end, Encoded(isa, text, at, l, start, end), codes)
    decreases |l|
  {
    codes := [];
    if l != [] && isa.encode(l[0]).Some? {
      var code := isa.encode(l[0]).value;
      if at.Some? && at.value + |code| <= |text| {
        JoinOne(code);
        codes := [code];
        var start' := (start + |code|) % WORD;
        var text' := Splice(text, Patch(at.value, code));
        if start' <= end {
          var rest := EncodedExactly(isa, text', Some(at.value + |code|), l[1..], start', end);
          codes := [code] + rest;
          FirstCode(isa, text, at.value, l, start, end, code, rest);
        }
      }
    }
  }

  lemma JoinOne(code: seq<byte>)
    ensures Join([code]) == code && Join([]) == []
  {
    assert [code][1..] == [];
  }

  lemma InTimeNext(start: u64, code: seq<byte>, rest: seq<seq<byte>>, end: u64)
    ensures InTime((start + |code|) % WORD, rest, end) <==> InTime(start, [code] + rest, end)
  {
    assert ([code] + rest)[1..] == rest;
    assert ((start + |code|) % WORD + |Join(rest)|) % WORD == (start + |code| + |Join(rest)|) % WORD;
  }

  /** One code more in front. */
  lemma FirstCode(isa: Isa, text: seq<byte>, at: nat, l: seq<Instr>, start: u64, end: u64, code: seq<byte>,
                  rest: seq<seq<byte>>)
    requires l != [] && isa.encode(l[0]) == Some(code) && at + |code| <= |text| && (start + |code|) % WORD <= end
    requires var text' := Splice(text, Patch(at, code));
      var start' := (start + |code|) % WORD;
      var r := Encoded(isa, text', Some(at + |code|), l[1..], start', end);
      EncodedAs(isa, text', Some(at + |code|), l[1..], start', end, r, rest)
    ensures EncodedAs(isa, text, Some(at), l, start, end, Encoded(isa, text, Some(at), l, start, end), [code] + rest)
  {
    hide InTime, Splice;
    var codes, text' := [code] + rest, Splice(text, Patch(at, code));
    assert codes[1..] == rest && Join(codes) == code + Join(rest);
    InTimeNext(start, code, rest, end);
    InTimeFirst(start, code, end);
    forall k | 0 < k < |codes|
      ensures InTime(start, codes[..k], end)
    {
      InTimeNext(start, code, rest[..k - 1], end);
      assert codes[..k] == [code] + rest[..k - 1];
      assert k == 1 ==> codes[..k] == [code];
    }
    assert rest == [] ==> codes == [code];
    assert Encoded(isa, text, Some(at), l, start, end)
        == Encoded(isa, text', Some(at + |code|), l[1..], (start + |code|) % WORD, end);
    hide Encoded;
    SplicedParts(text, at, code, Join(rest));
  }

  lemma InTimeFirst(start: u64, code: seq<byte>, end: u64)
    requires (start + |code|) % WORD <= end
    ensures InTime(start, [code], end)
  {
    JoinOne(code);
  }

  lemma SplicedParts<T>(s: seq<T>, at: nat, a: seq<T>, b: seq<T>)
    requires at + |a| <= |s|
    ensures var t := Splice(s, Patch(at, a));
      && t == s[..at] + a + s[at + |a|..]
      && (at + |a| + |b| <= |s| ==>
           t[..at + |a|] + b + t[at + |a| + |b|..] == s[..at] + (a + b) + s[at + |a| + |b|..])
  {
  }
}
