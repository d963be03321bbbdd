/** The identifier interner and its bitmap (parser/src/identifier.rs). */
module Interner {

  const WORD_BITS := 64

  /** The value of one bit in a word. */
  function Mask(shift: nat): (mask: bv64)
    requires shift < WORD_BITS
  {
    (1 as bv64) << (shift as bv6)
  }

  predicate Overlaps(word: bv64, mask: bv64) {
    word & mask != 0
  }

  predicate Bit(word: bv64, shift: nat)
    requires shift < WORD_BITS
  {
    Overlaps(word, Mask(shift))
  }

  lemma SetSameBit(word: bv64, a: bv64)
    requires a != 0
    ensures Overlaps(word | a, a)
  {
  }

  lemma OrDistributes(word: bv64, a: bv64, b: bv64)
    ensures (word | a) & b == (word & b) | (a & b)
  {
  }

  lemma OrNothing(x: bv64)
    ensures x | 0 == x
  {
  }

  lemma SetOtherBit(word: bv64, a: bv64, b: bv64)
    requires !Overlaps(a, b)
    ensures Overlaps(word | a, b) <==> Overlaps(word, b)
  {
    OrDistributes(word, a, b);
    OrNothing(word & b);
  }

  lemma SetBitHere(word: bv64, shift: nat)
    requires shift < WORD_BITS
    ensures Bit(word | Mask(shift), shift)
  {
    hide Mask;
    MasksAreDisjoint(shift, shift);
    SetSameBit(word, Mask(shift));
  }

  lemma SetBitElsewhere(word: bv64, shift: nat, other: nat)
    requires shift < WORD_BITS && other < WORD_BITS && shift != other
    ensures Bit(word | Mask(shift), other) <==> Bit(word, other)
  {
    hide Mask, Overlaps;
    MasksAreDisjoint(shift, other);
    SetOtherBit(word, Mask(shift), Mask(other));
  }

  lemma SetBit(word: bv64, shift: nat, other: nat)
    requires shift < WORD_BITS && other < WORD_BITS
    ensures Bit(word | Mask(shift), other) <==> other == shift || Bit(word, other)
  {
    hide Bit, Mask;
    if shift == other {
      SetBitHere(word, shift);
    } else {
      SetBitElsewhere(word, shift, other);
    }
  }

  lemma ShiftsDiffer(a: bv6, b: bv6)
    ensures (1 as bv64) << a != 0
    ensures a != b ==> !Overlaps((1 as bv64) << a, (1 as bv64) << b)
  {
  }

  function AsNumber(shift: bv6): nat {
    shift as nat
  }

  lemma AsNumberAgain(i: nat)
    requires i < WORD_BITS
    ensures AsNumber(i as bv6) == i
  {
  }

  lemma MasksAreDisjoint(i: nat, j: nat)
    requires i < WORD_BITS && j < WORD_BITS
    ensures Mask(i) != 0 && (i != j ==> !Overlaps(Mask(i), Mask(j)))
  {
    hide Overlaps, AsNumber;
    AsNumberAgain(i);
    AsNumberAgain(j);
    ShiftsDiffer(i as bv6, j as bv6);
  }

  /** The packed words hold these bits, and no others. */
  ghost predicate Packs(data: seq<bv64>, bits: seq<bool>) {
    && |data| == (|bits| + WORD_BITS - 1) / WORD_BITS
    && (forall i: nat | i < |bits| :: Bit(data[i / WORD_BITS], i % WORD_BITS) == bits[i])
    && (forall i: nat | |bits| <= i < WORD_BITS * |data| :: !Bit(data[i / WORD_BITS], i % WORD_BITS))
  }

  class Bitmap {
    var data: seq<bv64>
    var len: nat
    ghost var bits: seq<bool>

    ghost predicate Valid()
      reads this
    {
      len == |bits| && Packs(data, bits)
    }

    constructor ()
      ensures Valid() && bits == []
    {
      data, len, bits := [], 0, [];
    }

    method Push(val: bool)
      requires Valid()
      modifies this
      ensures Valid() && bits == old(bits) + [val]
    {
      hide Bit, Mask;
      var idx, shift := len / WORD_BITS, len % WORD_BITS;
      ghost var before := data;
      if idx >= |data| {
        data := data + [0];
      }
      PushedPacks(before, bits, data, val);
      if val {
        data := data[idx := data[idx] | Mask(shift)];
      }
      len := len + 1;
      bits := bits + [val];
    }

    method Get(i: nat) returns (r: bool)
      requires Valid() && i < len
      ensures r == bits[i]
    {
      r := data[i / WORD_BITS] & Mask(i % WORD_BITS) != 0;
    }
  }

  lemma NoBits(shift: nat)
    requires shift < WORD_BITS
    ensures !Bit(0, shift)
  {
  }

  /** With a word added when the last one is full, there is room for another bit. */
  lemma RoomForOne(data: seq<bv64>, bits: seq<bool>, more: seq<bv64>)
    requires Packs(data, bits)
    requires more == if |bits| / WORD_BITS >= |data| then data + [0] else data
    ensures |bits| / WORD_BITS < |more| && |more| == |bits| / WORD_BITS + 1
    ensures forall i: nat | i < |bits| :: Bit(more[i / WORD_BITS], i % WORD_BITS) == bits[i]
    ensures forall i: nat | |bits| <= i < WORD_BITS * |more| :: !Bit(more[i / WORD_BITS], i % WORD_BITS)
  {
    hide Bit, Mask;
    forall shift: nat | shift < WORD_BITS ensures !Bit(0, shift) {
      NoBits(shift);
    }
  }

  lemma SameBit(i: nat, n: nat)
    ensures i / WORD_BITS == n / WORD_BITS && i % WORD_BITS == n % WORD_BITS <==> i == n
  {
  }

  function WithBit(data: seq<bv64>, word: nat, shift: nat, val: bool): (r: seq<bv64>)
    requires word < |data| && shift < WORD_BITS
    ensures |r| == |data|
  {
    if val then data[word := data[word] | Mask(shift)] else data
  }

  /** Setting a clear bit, or leaving it clear, leaves the other bits alone. */
  lemma OneBit(data: seq<bv64>, word: nat, shift: nat, val: bool, at: nat, other: nat)
    requires word < |data| && at < |data| && shift < WORD_BITS && other < WORD_BITS && !Bit(data[word], shift)
    ensures Bit(WithBit(data, word, shift, val)[at], other) ==
            if at == word && other == shift then val else Bit(data[at], other)
  {
    hide Bit, Mask;
    if val && at == word {
      SetBit(data[word], shift, other);
    }
  }

  lemma PushedPacks(data: seq<bv64>, bits: seq<bool>, more: seq<bv64>, val: bool)
    requires Packs(data, bits) && more == if |bits| / WORD_BITS >= |data| then data + [0] else data
    ensures |bits| / WORD_BITS < |more|
    ensures Packs(WithBit(more, |bits| / WORD_BITS, |bits| % WORD_BITS, val), bits + [val])
  {
    hide Bit, Mask, WithBit;
    RoomForOne(data, bits, more);
    var n := |bits|;
    var pushed := WithBit(more, n / WORD_BITS, n % WORD_BITS, val);
    forall i: nat | i < WORD_BITS * |pushed|
      ensures Bit(pushed[i / WORD_BITS], i % WORD_BITS) ==
              if i == n then val else Bit(more[i / WORD_BITS], i % WORD_BITS)
    {
      OneBit(more, n / WORD_BITS, n % WORD_BITS, val, i / WORD_BITS, i % WORD_BITS);
      SameBit(i, n);
    }
  }

  // The interner

  /** One interned string: its text, and whether it was generated. */
  datatype Interned = Interned(text: string, generated: bool)

  /** The map finds the symbol of each text that was written down, and only those. */
  ghost predicate Indexed(index: map<string, nat>, symbols: seq<Interned>) {
    && (forall text <- index :: index[text] < |symbols| && symbols[index[text]] == Interned(text, false))
    && (forall i: nat | i < |symbols| && !symbols[i].generated ::
          symbols[i].text in index && index[symbols[i].text] == i)
  }

  class Interner {
    var index: map<string, nat>
    var texts: seq<string>
    const generated: Bitmap

    ghost function Symbols(): seq<Interned>
      requires |generated.bits| == |texts|
      reads this, generated
    {
      seq(|texts|, i
          requires 0 <= i < |texts| reads this, generated requires |generated.bits| == |texts| =>
            Interned(texts[i], generated.bits[i]))
    }

    ghost predicate Valid()
      reads this, generated
    {
      generated.Valid() && |generated.bits| == |texts| && Indexed(index, Symbols())
    }

    constructor ()
      ensures Valid() && fresh(generated) && Symbols() == []
    {
      index, texts := map[], [];
      generated := new Bitmap();
    }

    /** Symbols keep their text for ever, and a text that was written down before keeps its symbol. */
    method GetOrIntern(text: string) returns (sym: nat)
      requires Valid()
      modifies this, generated
      ensures Valid() && sym < |Symbols()| && Symbols()[sym] == Interned(text, false)
      ensures Symbols() == old(Symbols())
              || (sym == |old(Symbols())| && Symbols() == old(Symbols()) + [Interned(text, false)])
      ensures Interned(text, false) in old(Symbols()) ==> Symbols() == old(Symbols())
    {
      if text in index {
        return index[text];
      }
      sym := Intern(text, false);
    }

    /** A new symbol, which no text leads to if it is generated. */
    method Intern(text: string, isGenerated: bool) returns (sym: nat)
      requires Valid() && (isGenerated || text !in index)
      modifies this, generated
      ensures Valid() && sym == |old(Symbols())| && Symbols() == old(Symbols()) + [Interned(text, isGenerated)]
    {
      ghost var before := Symbols();
      sym := |texts|;
      texts := texts + [text];
      generated.Push(isGenerated);
      if !isGenerated {
        index := index[text := sym];
      }
      assert Symbols() == before + [Interned(text, isGenerated)];
    }

    method Lookup(sym: nat) returns (text: string)
      requires Valid() && sym < |Symbols()|
      ensures text == Symbols()[sym].text
    {
      text := texts[sym];
    }

    method IsGenerated(sym: nat) returns (r: bool)
      requires Valid() && sym < |Symbols()|
      ensures r == Symbols()[sym].generated
    {
      r := generated.Get(sym);
    }
  }

  // Whole runs

  datatype Request = Written(text: string) | Fresh(text: string)

  /** The symbols given so far have the text that was asked for, and are the same exactly for the same written text. */
  ghost predicate Answered(symbols: seq<Interned>, requests: seq<Request>, answers: seq<nat>) {
    && |answers| == |requests|
    && (forall i | 0 <= i < |answers| ::
          answers[i] < |symbols| && symbols[answers[i]] == Interned(requests[i].text, requests[i].Fresh?))
    && (forall i, j | 0 <= i < j < |answers| ::
          answers[i] == answers[j] <==> requests[i].Written? && requests[i] == requests[j])
  }

  lemma AnsweredOneMore(before: seq<Interned>, symbols: seq<Interned>, index: map<string, nat>, requests: seq<Request>,
                        answers: seq<nat>, request: Request, sym: nat)
    requires Answered(before, requests, answers) && before <= symbols && Indexed(index, symbols)
    requires sym < |symbols| && symbols[sym] == Interned(request.text, request.Fresh?)
    requires request.Fresh? ==> sym == |before|
    ensures Answered(symbols, requests + [request], answers + [sym])
  {
    forall i | 0 <= i < |answers| ensures answers[i] == sym <==> requests[i].Written? && requests[i] == request {
      assert symbols[answers[i]] == before[answers[i]];
    }
  }

  method ServeOne(interner: Interner, request: Request) returns (sym: nat)
    requires interner.Valid()
    modifies interner, interner.generated
    ensures interner.Valid() && sym < |interner.Symbols()|
    ensures interner.Symbols()[sym] == Interned(request.text, request.Fresh?)
    ensures old(interner.Symbols()) <= interner.Symbols() && (request.Fresh? ==> sym == |old(interner.Symbols())|)
  {
    hide Indexed, Packs;
    match request
    case Written(text) => sym := interner.GetOrIntern(text);
    case Fresh(text) => sym := interner.Intern(text, true);
  }

  /** Whatever is asked for in whatever order, the symbols answer as identifiers should. */
  method Serve(requests: seq<Request>) returns (answers: seq<nat>)
    ensures |answers| == |requests|
    ensures forall i, j | 0 <= i < j < |answers| ::
      answers[i] == answers[j] <==> requests[i].Written? && requests[i] == requests[j]
  {
    hide Answered, Indexed, Packs;
    var interner := new Interner();
    answers := [];
    NothingAnswered(interner.Symbols());
    for k := 0 to |requests|
      invariant interner.Valid() && fresh(interner) && fresh(interner.generated)
      invariant Answered(interner.Symbols(), requests[..k], answers)
    {
      ghost var before := interner.Symbols();
      var sym := ServeOne(interner, requests[k]);
      AnsweredOneMore(before, interner.Symbols(), interner.index, requests[..k], answers, requests[k], sym);
      assert requests[..k + 1] == requests[..k] + [requests[k]];
      answers := answers + [sym];
    }
    assert requests[..|requests|] == requests;
    SameAnswers(interner.Symbols(), requests, answers);
  }

  lemma NothingAnswered(symbols: seq<Interned>)
    ensures Answered(symbols, [], [])
  {
  }

  lemma SameAnswers(symbols: seq<Interned>, requests: seq<Request>, answers: seq<nat>)
    requires Answered(symbols, requests, answers)
    ensures |answers| == |requests|
    ensures forall i, j | 0 <= i < j < |answers| ::
      answers[i] == answers[j] <==> requests[i].Written? && requests[i] == requests[j]
  {
  }
}
