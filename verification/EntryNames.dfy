/** The printed form of lock file entry names (package/src/lock.rs). */
module EntryNames {
  import opened Types
  import opened LockFiles

  const U32 := 0x1_0000_0000

  function Digits(n: nat): (s: string)
    ensures |s| > 0
  {
    var last := ['0' + (n % 10) as char];
    if n < 10 then last else Digits(n / 10) + last
  }

  predicate IsDigit(c: char) {
    '0' <= c <= '9'
  }

  function ParseDigits(s: string): Option<nat> {
    if s == [] then Some(0) else
    var c := s[|s| - 1];
    match ParseDigits(s[..|s| - 1])
    case None => None
    case Some(n) => if IsDigit(c) then Some(10 * n + (c - '0') as nat) else None
  }

  /** Reading an unsigned 32-bit number: an optional plus sign, then digits, and no overflow. */
  function ParseU32(s: string): Option<nat> {
    var digits := if s != [] && s[0] == '+' then s[1..] else s;
    if digits == [] then None else
    match ParseDigits(digits)
    case None => None
    case Some(n) => if n < U32 then Some(n) else None
  }

  /** The text before and after the first space. */
  function SplitOnce(s: string): Option<(string, string)> {
    if s == [] then None
    else if s[0] == ' ' then Some(([], s[1..]))
    else
      match SplitOnce(s[1..])
      case None => None
      case Some((before, after)) => Some(([s[0]] + before, after))
  }

  function Print(e: EntryName): string {
    if e.id == 0 then e.name else e.name + " " + Digits(e.id)
  }

  function Parse(s: string): Option<EntryName> {
    match SplitOnce(s)
    case None => Some(EntryName(s, 0))
    case Some((name, num)) =>
      match ParseU32(num)
      case None => None
      case Some(id) => Some(EntryName(name, id))
  }

  lemma {:induction false} DigitsParse(n: nat)
    ensures ParseDigits(Digits(n)) == Some(n) && IsDigit(Digits(n)[0])
  {
    var s := Digits(n);
    if n < 10 {
      assert s[..|s| - 1] == [];
    } else {
      DigitsParse(n / 10);
      assert s[..|s| - 1] == Digits(n / 10);
    }
  }

  lemma {:induction false} SplitAtFirstSpace(before: string, after: string)
    requires ' ' !in before
    ensures SplitOnce(before + " " + after) == Some((before, after))
  {
    var s := before + " " + after;
    if before == [] {
      assert s[1..] == after;
    } else {
      assert s[0] == before[0] && s[1..] == before[1..] + " " + after && before == [before[0]] + before[1..];
      SplitAtFirstSpace(before[1..], after);
    }
  }

  lemma {:induction false} SplitNoSpace(s: string)
    ensures SplitOnce(s).None? <==> ' ' !in s
    ensures SplitOnce(s).Some? ==> ' ' !in SplitOnce(s).value.0
  {
    if s != [] && s[0] != ' ' {
      SplitNoSpace(s[1..]);
      assert s == [s[0]] + s[1..];
    }
  }

  /** Reading back what was written gives the name again exactly when it has no space in it. */
  lemma PrintParse(e: EntryName)
    requires e.id < U32
    ensures Parse(Print(e)) == Some(e) <==> ' ' !in e.name
  {
    var s := Print(e);
    SplitNoSpace(s);
    if ' ' !in e.name && e.id != 0 {
      SplitAtFirstSpace(e.name, Digits(e.id));
      DigitsParse(e.id);
    }
  }

  /** A number after the space may have a plus sign, and must fit into 32 bits. */
  lemma ParseNumber(name: string, id: nat, plus: bool)
    requires ' ' !in name
    ensures Parse(name + " " + (if plus then "+" else "") + Digits(id)) ==
            if id < U32 then Some(EntryName(name, id)) else None
  {
    var num := if plus then "+" + Digits(id) else Digits(id);
    assert name + " " + (if plus then "+" else "") + Digits(id) == name + " " + num;
    SplitAtFirstSpace(name, num);
    DigitsParse(id);
    assert plus ==> num[1..] == Digits(id);
  }

  /** So names without spaces have different printed forms. */
  lemma PrintIsInjective(e: EntryName, f: EntryName)
    requires e.id < U32 && f.id < U32 && ' ' !in e.name && ' ' !in f.name && Print(e) == Print(f)
    ensures e == f
  {
    PrintParse(e);
    PrintParse(f);
  }
}
