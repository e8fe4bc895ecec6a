/**
 * The pid name registry of sw/os/pidreg.c: a process registers a base name and
 * receives the base name followed by the smallest number that makes it unique.
 */
module PidReg {
  import opened Words

  const PIDREG_MAX: int := 32
  const BASENAME_MAX: int := 16
  const NAME_MAX: int := 24

  /** One slot of z_pidreg[]; `name` is the text before the terminating NUL. */
  datatype Entry = Entry(name: string, pid: uint32, active: bool)

  const EMPTY: Entry := Entry("", 0, false)

  function Take(s: string, n: nat): string {
    if |s| <= n then s else s[..n]
  }

  // ----- decimal suffixes

  function Digit(d: int): char
    requires 0 <= d < 10
  {
    '0' + d as char
  }

  function Digits(n: nat): string {
    if n < 10 then [Digit(n)] else Digits(n / 10) + [Digit(n % 10)]
  }

  lemma {:induction false} DigitsInjective(m: nat, n: nat)
    requires Digits(m) == Digits(n)
    ensures m == n
  {
    DigitsNonempty(m / 10);
    DigitsNonempty(n / 10);
    var dm, dn := Digits(m), Digits(n);
    assert dm[|dm| - 1] == dn[|dn| - 1];
    if m >= 10 && n >= 10 {
      assert Digits(m / 10) == dm[..|dm| - 1] && Digits(n / 10) == dn[..|dn| - 1];
      DigitsInjective(m / 10, n / 10);
    }
  }

  lemma {:induction false} DigitsNonempty(n: nat)
    ensures |Digits(n)| > 0
  {
  }

  lemma {:induction false} DigitsLength(n: nat, len: nat)
    requires n < Pow10(len) && len > 0
    ensures |Digits(n)| <= len
    decreases len
  {
    if n >= 10 {
      TenthBelow(n, Pow10(len - 1));
      DigitsLength(n / 10, len - 1);
    }
  }

  lemma TenthBelow(n: nat, p: nat)
    requires n < 10 * p
    ensures n / 10 < p
  {
  }

  function Pow10(n: nat): nat {
    if n == 0 then 1 else 10 * Pow10(n - 1)
  }

  /** A 32-bit number has at most ten digits. */
  lemma TenDigits()
    ensures Pow10(10) == 10_000_000_000
  {
  }

  /** What is left of a number after some digits have been taken from its end. */
  function Leading(v: nat): string { if v > 0 then Digits(v) else [] }

  lemma TakeDigit(v: nat, digits: string)
    requires v > 0
    ensures Leading(v / 10) + Reverse(digits + [Digit(v % 10)]) == Leading(v) + Reverse(digits)
  {
    ReverseAppend(digits, Digit(v % 10));
    assert Digits(v) == Leading(v / 10) + [Digit(v % 10)];
  }

  /** The digits[] array of append_decimal, least significant digit first. */
  method CollectDigits(val: uint32) returns (digits: string)
    ensures Reverse(digits) == Digits(val)
  {
    digits := [];
    if val == 0 {
      return ['0'];
    }
    var v: int := val;
    ghost var room: nat := 10;
    TenDigits();
    assert [] + Reverse(digits) == [];
    while v > 0 && |digits| < 10
      invariant 0 <= v < Pow10(room) && |digits| + room == 10
      invariant Leading(v) + Reverse(digits) == Digits(val)
      decreases v
    {
      TakeDigit(v, digits);
      TenthBelow(v, Pow10(room - 1));
      digits := digits + [Digit(v % 10)];
      v := v / 10;
      room := room - 1;
    }
    assert v == 0 && [] + Reverse(digits) == Reverse(digits);
  }

  /** append_decimal: `val` in decimal behind `buf`, as far as the buffer reaches. */
  method AppendDecimal(buf: string, bufSize: uint32, val: uint32) returns (r: string)
    requires |buf| < bufSize
    ensures r == Take(buf + Digits(val), bufSize - 1)
  {
    r := buf;
    if |r| >= bufSize - 1 {
      return;
    }
    var digits := CollectDigits(val);
    while |digits| > 0 && |r| < bufSize - 1
      invariant |r| < bufSize
      invariant r + Reverse(digits) == buf + Digits(val)
      decreases |digits|
    {
      var last := |digits| - 1;
      ReverseAppend(digits[..last], digits[last]);
      assert digits == digits[..last] + [digits[last]];
      r := r + [digits[last]];
      digits := digits[..last];
    }
  }

  function Reverse(s: string): string {
    if s == [] then [] else Reverse(s[1..]) + [s[0]]
  }

  lemma {:induction false} ReverseAppend(s: string, c: char)
    ensures Reverse(s + [c]) == [c] + Reverse(s)
  {
    if s != [] {
      assert (s + [c])[1..] == s[1..] + [c];
      ReverseAppend(s[1..], c);
    }
  }

  // ----- the registry as a value

  type Table = t: seq<Entry> | |t| == PIDREG_MAX witness seq(PIDREG_MAX, i requires 0 <= i => EMPTY)

  /** The full name tried for number `n`. */
  function Candidate(base: string, n: nat): string {
    Take(Take(base, NAME_MAX - 1) + Digits(n), NAME_MAX - 1)
  }

  predicate Taken(t: seq<Entry>, name: string) {
    exists i | 0 <= i < |t| :: t[i].active && t[i].name == name
  }

  ghost predicate IsSmallestFree(t: seq<Entry>, base: string, n: nat) {
    !Taken(t, Candidate(base, n)) && forall m: nat | m < n :: Taken(t, Candidate(base, m))
  }

  /** The number of active entries. */
  function ActiveCount(t: seq<Entry>): nat {
    if t == [] then 0 else (if t[0].active then 1 else 0) + ActiveCount(t[1..])
  }

  function ActiveNames(t: seq<Entry>): set<string> {
    set i | 0 <= i < |t| && t[i].active :: t[i].name
  }

  lemma {:induction false} ActiveNamesBound(t: seq<Entry>)
    ensures |ActiveNames(t)| <= ActiveCount(t) <= |t|
  {
    if t != [] {
      ActiveNamesBound(t[1..]);
      var first: set<string> := if t[0].active then {t[0].name} else {};
      assert ActiveNames(t) == first + ActiveNames(t[1..]) by {
        forall x | x in ActiveNames(t) ensures x in first + ActiveNames(t[1..]) {
          var i :| 0 <= i < |t| && t[i].active && t[i].name == x;
          if i > 0 { assert t[1..][i - 1] == t[i]; }
        }
        forall x | x in ActiveNames(t[1..]) ensures x in ActiveNames(t) {
          var i :| 0 <= i < |t[1..]| && t[1..][i].active && t[1..][i].name == x;
          assert t[i + 1] == t[1..][i];
        }
      }
    }
  }

  /** Different numbers give different names: 24 bytes hold any base name and eight digits. */
  lemma CandidateInjective(base: string, m: nat, n: nat)
    requires |base| < BASENAME_MAX && m < Pow10(8) && n < Pow10(8)
    requires Candidate(base, m) == Candidate(base, n)
    ensures m == n
  {
    DigitsLength(m, 8);
    DigitsLength(n, 8);
    assert (base + Digits(m))[|base|..] == Digits(m);
    assert (base + Digits(n))[|base|..] == Digits(n);
    DigitsInjective(m, n);
  }

  function Candidates(base: string, n: nat): set<string> {
    set m: nat | m < n :: Candidate(base, m)
  }

  lemma {:induction false} CandidatesCount(base: string, n: nat)
    requires |base| < BASENAME_MAX && n <= Pow10(8)
    ensures |Candidates(base, n)| == n
  {
    if n != 0 {
      CandidatesCount(base, n - 1);
      var last := Candidate(base, n - 1);
      if last in Candidates(base, n - 1) {
        var m: nat :| m < n - 1 && Candidate(base, m) == last;
        CandidateInjective(base, m, n - 1);
      }
      assert Candidates(base, n) == Candidates(base, n - 1) + {last};
    }
  }

  /** Pigeonhole: if numbers below `n` are all taken, there are at least `n` active entries. */
  lemma TakenBelowBound(t: seq<Entry>, base: string, n: nat)
    requires |base| < BASENAME_MAX && n <= Pow10(8)
    requires forall m: nat | m < n :: Taken(t, Candidate(base, m))
    ensures n <= ActiveCount(t)
  {
    CandidatesCount(base, n);
    ActiveNamesBound(t);
    forall x | x in Candidates(base, n) ensures x in ActiveNames(t) {
      var m: nat :| m < n && Candidate(base, m) == x;
      assert Taken(t, Candidate(base, m));
    }
    SubsetCardinality(Candidates(base, n), ActiveNames(t));
  }

  lemma {:induction false} SubsetCardinality<T>(a: set<T>, b: set<T>)
    requires a <= b
    ensures |a| <= |b|
  {
    if a != {} {
      var x :| x in a;
      SubsetCardinality(a - {x}, b - {x});
    }
  }

  /**
   * The search for the smallest free number.  It needs no bound of its own:
   * by the pigeonhole argument it stops at a number no larger than the number
   * of active entries.
   */
  function SearchFree(t: Table, base: string, n: nat): (r: nat)
    requires |base| < BASENAME_MAX
    requires forall m: nat | m < n :: Taken(t, Candidate(base, m))
    requires n <= PIDREG_MAX
    ensures IsSmallestFree(t, base, r) && r <= ActiveCount(t)
    decreases PIDREG_MAX - n
  {
    AllTakenStops(t, base, n);
    if !Taken(t, Candidate(base, n)) then n else SearchFree(t, base, n + 1)
  }

  lemma AllTakenStops(t: Table, base: string, n: nat)
    requires |base| < BASENAME_MAX
    requires forall m: nat | m < n :: Taken(t, Candidate(base, m))
    requires n <= PIDREG_MAX
    ensures n <= ActiveCount(t)
    ensures n == PIDREG_MAX ==> !Taken(t, Candidate(base, n))
  {
    assert Pow10(8) > PIDREG_MAX + 1 by { assert Pow10(2) == 100; Pow10Grows(2, 8); }
    TakenBelowBound(t, base, n);
    if n == PIDREG_MAX && Taken(t, Candidate(base, n)) {
      TakenBelowBound(t, base, n + 1);
      ActiveNamesBound(t);
    }
  }

  lemma {:induction false} Pow10Grows(m: nat, n: nat)
    requires m <= n
    ensures Pow10(m) <= Pow10(n)
  {
    if m < n {
      Pow10Grows(m, n - 1);
    }
  }

  lemma SmallestFreeUnique(t: seq<Entry>, base: string, m: nat, n: nat)
    requires IsSmallestFree(t, base, m) && IsSmallestFree(t, base, n)
    ensures m == n
  {
  }

  /** The first inactive slot at or after `i`, or the length of the table. */
  function FreeSlot(t: Table, i: nat): (r: nat)
    requires i <= PIDREG_MAX
    ensures i <= r <= PIDREG_MAX
    ensures forall j | i <= j < r :: t[j].active
    ensures r < PIDREG_MAX ==> !t[r].active
    decreases PIDREG_MAX - i
  {
    if i == PIDREG_MAX || !t[i].active then i else FreeSlot(t, i + 1)
  }

  /** k_pid_register; `arg` is None when the caller passed no string. */
  function Register(t: Table, arg: Option<string>, pid: uint32): (Table, Option<string>) {
    if arg == None || arg.value == "" then (t, None)
    else
      var base := Take(arg.value, BASENAME_MAX - 1);
      var name := Candidate(base, SearchFree(t, base, 0));
      var slot := FreeSlot(t, 0);
      if slot == PIDREG_MAX then (t, None)
      else (t[slot := Entry(name, pid, true)], Some(name))
  }

  /** The pid of the first active entry with this name, at or after slot `i`. */
  function LookupFrom(t: seq<Entry>, name: string, i: nat): Option<uint32>
    requires i <= |t|
    decreases |t| - i
  {
    if i == |t| then None
    else if t[i].active && t[i].name == name then Some(t[i].pid)
    else LookupFrom(t, name, i + 1)
  }

  /** k_pid_lookup */
  function Lookup(t: seq<Entry>, arg: Option<string>): Option<uint32> {
    if arg == None then None else LookupFrom(t, Take(arg.value, NAME_MAX - 1), 0)
  }

  /** k_pidreg_release_all */
  function ReleaseAll(t: Table, pid: uint32): (r: Table) {
    seq(PIDREG_MAX, i requires 0 <= i < PIDREG_MAX => if t[i].active && t[i].pid == pid then EMPTY else t[i])
  }

  class Registry {
    const entries: array<Entry>  // z_pidreg

    constructor ()
      ensures fresh(entries) && entries.Length == PIDREG_MAX
    {
      entries := new Entry[PIDREG_MAX](i => EMPTY);
    }

    /** k_pidreg_init: the table's memory holds anything before. */
    method Initialize()
      requires entries.Length == PIDREG_MAX
      modifies entries
      ensures forall e | e in entries[..] :: e == EMPTY
    {
      for e := 0 to PIDREG_MAX
        invariant forall i | 0 <= i < e :: entries[i] == EMPTY
      {
        entries[e] := EMPTY;
      }
    }

    method IsTaken(name: string) returns (taken: bool)
      requires entries.Length == PIDREG_MAX
      ensures taken == Taken(entries[..], name)
    {
      for e := 0 to PIDREG_MAX
        invariant forall i | 0 <= i < e :: !(entries[i].active && entries[i].name == name)
      {
        if entries[e].active && entries[e].name == name {
          assert entries[..][e].active;
          return true;
        }
      }
      return false;
    }

    method RegisterName(arg: Option<string>, pid: uint32) returns (r: Option<string>)
      requires entries.Length == PIDREG_MAX
      modifies entries
      ensures (entries[..], r) == Register(old(entries[..]), arg, pid)
    {
      if arg == None || arg.value == "" {
        return None;
      }
      ghost var t: Table := entries[..];
      var base := Take(arg.value, BASENAME_MAX - 1);
      var n: uint32 := 0;
      var candidate := AppendDecimal(Take(base, NAME_MAX - 1), NAME_MAX, n);
      var taken := IsTaken(candidate);
      while taken
        invariant entries[..] == t && n <= PIDREG_MAX
        invariant candidate == Candidate(base, n) && taken == Taken(t, candidate)
        invariant forall m: nat | m < n :: Taken(t, Candidate(base, m))
        decreases PIDREG_MAX - n
      {
        AllTakenStops(t, base, n);
        n := n + 1;
        candidate := AppendDecimal(Take(base, NAME_MAX - 1), NAME_MAX, n);
        taken := IsTaken(candidate);
      }
      SmallestFreeUnique(t, base, n, SearchFree(t, base, 0));

      var slot := 0;
      while slot < PIDREG_MAX && entries[slot].active
        invariant 0 <= slot <= PIDREG_MAX
        invariant FreeSlot(t, 0) == FreeSlot(t, slot)
      {
        slot := slot + 1;
      }
      if slot == PIDREG_MAX {
        return None;
      }
      entries[slot] := Entry(candidate, pid, true);
      r := Some(candidate);
    }

    method LookupName(arg: Option<string>) returns (r: Option<uint32>)
      requires entries.Length == PIDREG_MAX
      ensures r == Lookup(entries[..], arg)
    {
      if arg == None {
        return None;
      }
      var name := Take(arg.value, NAME_MAX - 1);
      for e := 0 to PIDREG_MAX
        invariant Lookup(entries[..], arg) == LookupFrom(entries[..], name, e)
      {
        if entries[e].active && entries[e].name == name {
          return Some(entries[e].pid);
        }
      }
      return None;
    }

    method Release(pid: uint32)
      requires entries.Length == PIDREG_MAX
      modifies entries
      ensures entries[..] == ReleaseAll(old(entries[..]), pid)
    {
      ghost var t: Table := entries[..];
      for e := 0 to PIDREG_MAX
        invariant forall i | 0 <= i < e :: entries[i] == ReleaseAll(t, pid)[i]
        invariant forall i | e <= i < PIDREG_MAX :: entries[i] == t[i]
      {
        if entries[e].active && entries[e].pid == pid {
          entries[e] := EMPTY;
        }
      }
    }
  }

  // ----- uniqueness in every reachable state

  ghost predicate Unique(t: seq<Entry>) {
    && (forall i, j | 0 <= i < j < |t| && t[i].active && t[j].active :: t[i].name != t[j].name)
    && (forall i | 0 <= i < |t| && t[i].active :: |t[i].name| < NAME_MAX)
  }

  /** `pid` holds the registration of `name`. */
  ghost predicate Holds(t: seq<Entry>, name: string, pid: uint32) {
    exists i | 0 <= i < |t| :: t[i] == Entry(name, pid, true)
  }

  lemma {:induction false} LookupFromFinds(t: seq<Entry>, name: string, i: nat, k: nat)
    requires Unique(t) && i <= k < |t| && t[k].active && t[k].name == name
    ensures LookupFrom(t, name, i) == Some(t[k].pid)
    decreases k - i
  {
    if i != k {
      LookupFromFinds(t, name, i + 1, k);
    }
  }

  lemma {:induction false} LookupFromSound(t: seq<Entry>, name: string, i: nat)
    requires i <= |t|
    ensures var r := LookupFrom(t, name, i); r.Some? ==> Holds(t, name, r.value)
    decreases |t| - i
  {
    if i < |t| && !(t[i].active && t[i].name == name) {
      LookupFromSound(t, name, i + 1);
    }
  }

  /** A lookup returns a pid exactly when that pid holds the registration. */
  lemma LookupIsHolder(t: seq<Entry>, name: string, pid: uint32)
    requires Unique(t) && |name| < NAME_MAX
    ensures Lookup(t, Some(name)) == Some(pid) <==> Holds(t, name, pid)
  {
    LookupFromSound(t, name, 0);
    if Holds(t, name, pid) {
      var k :| 0 <= k < |t| && t[k] == Entry(name, pid, true);
      LookupFromFinds(t, name, 0, k);
    }
  }

  lemma RegisterKeepsUnique(t: Table, arg: Option<string>, pid: uint32)
    requires Unique(t)
    ensures Unique(Register(t, arg, pid).0)
  {
  }

  lemma ReleaseKeepsUnique(t: Table, pid: uint32)
    requires Unique(t)
    ensures Unique(ReleaseAll(t, pid))
  {
  }

  datatype Op = DoRegister(arg: Option<string>, pid: uint32) | DoRelease(pid: uint32)

  function Step(t: Table, op: Op): Table {
    match op
    case DoRegister(arg, pid) => Register(t, arg, pid).0
    case DoRelease(pid) => ReleaseAll(t, pid)
  }

  function Run(t: Table, ops: seq<Op>): Table
    decreases |ops|
  {
    if ops == [] then t else Run(Step(t, ops[0]), ops[1..])
  }

  lemma {:induction false} RunKeepsUnique(t: Table, ops: seq<Op>)
    requires Unique(t)
    ensures Unique(Run(t, ops))
    decreases |ops|
  {
    if ops != [] {
      match ops[0] {
        case DoRegister(arg, pid) => RegisterKeepsUnique(t, arg, pid);
        case DoRelease(pid) => ReleaseKeepsUnique(t, pid);
      }
      RunKeepsUnique(Step(t, ops[0]), ops[1..]);
    }
  }

  lemma StepKeepsHolder(t: Table, op: Op, name: string, pid: uint32)
    requires Holds(t, name, pid) && op != DoRelease(pid)
    ensures Holds(Step(t, op), name, pid)
  {
    var i :| 0 <= i < |t| && t[i] == Entry(name, pid, true);
    assert Step(t, op)[i] == t[i];
  }

  lemma {:induction false} RunKeepsHolder(t: Table, ops: seq<Op>, name: string, pid: uint32)
    requires Holds(t, name, pid) && DoRelease(pid) !in ops
    ensures Holds(Run(t, ops), name, pid)
    decreases |ops|
  {
    if ops != [] {
      StepKeepsHolder(t, ops[0], name, pid);
      RunKeepsHolder(Step(t, ops[0]), ops[1..], name, pid);
    }
  }

  /**
   * From any reachable table: the name a registration returns looks up to its
   * owner through every later run that does not release the owner, and to
   * nobody right after the release.
   */
  lemma RegisteredNameLooksUpToOwner(before: seq<Op>, arg: Option<string>, pid: uint32, after: seq<Op>)
    requires DoRelease(pid) !in after
    ensures var t := Run(seq(PIDREG_MAX, i requires 0 <= i => EMPTY), before);
            var (u, name) := Register(t, arg, pid);
            && Unique(t)
            && (name.Some? ==>
                 && !Taken(t, name.value)
                 && Lookup(Run(u, after), name) == Some(pid)
                 && Lookup(ReleaseAll(Run(u, after), pid), name) == None)
  {
    var t := Run(seq(PIDREG_MAX, i requires 0 <= i => EMPTY), before);
    RunKeepsUnique(seq(PIDREG_MAX, i requires 0 <= i => EMPTY), before);
    var (u, name) := Register(t, arg, pid);
    if name.Some? {
      assert u[FreeSlot(t, 0)] == Entry(name.value, pid, true);
      assert Holds(u, name.value, pid);
      RegisterKeepsUnique(t, arg, pid);
      RunKeepsUnique(u, after);
      RunKeepsHolder(u, after, name.value, pid);
      LookupIsHolder(Run(u, after), name.value, pid);
      ReleasedNameIsFree(Run(u, after), name.value, pid);
    }
  }

  lemma ReleasedNameIsFree(t: Table, name: string, pid: uint32)
    requires Unique(t) && |name| < NAME_MAX && Holds(t, name, pid)
    ensures Lookup(ReleaseAll(t, pid), Some(name)) == None
  {
    var r := ReleaseAll(t, pid);
    var k :| 0 <= k < |t| && t[k] == Entry(name, pid, true);
    forall i | 0 <= i < |r| && r[i].active ensures r[i].name != name {
      assert r[i] == t[i] && i != k;
    }
    LookupFromSound(r, name, 0);
  }

  // ----- which registrations succeed

  predicate Full(t: Table) { forall e | e in t :: e.active }

  lemma {:induction false} FreeSlotExists(t: Table, i: nat)
    requires i <= PIDREG_MAX
    ensures FreeSlot(t, i) < PIDREG_MAX <==> exists k | i <= k < PIDREG_MAX :: !t[k].active
    decreases PIDREG_MAX - i
  {
    if i < PIDREG_MAX && t[i].active {
      FreeSlotExists(t, i + 1);
    }
  }

  /** A registration fails only for a missing or empty name and a full table. */
  lemma RegisterSucceedsExactlyWhen(t: Table, arg: Option<string>, pid: uint32)
    ensures Register(t, arg, pid).1.Some? <==> arg.Some? && arg.value != "" && !Full(t)
  {
    FreeSlotExists(t, 0);
    assert !Full(t) <==> exists k | 0 <= k < PIDREG_MAX :: !t[k].active;
  }

  /** What a decimal numeral stands for. */
  function ValueOf(d: string): int {
    if d == [] then 0 else ValueOf(d[..|d| - 1]) * 10 + (d[|d| - 1] as int - '0' as int)
  }

  /** The numeral of `n` without leading zeros. */
  ghost predicate IsNumeral(d: string, n: nat) {
    d != [] && (forall i | 0 <= i < |d| :: '0' <= d[i] <= '9') && ValueOf(d) == n && (|d| > 1 ==> d[0] != '0')
  }

  lemma {:induction false} DigitsAreNumeral(n: nat)
    ensures IsNumeral(Digits(n), n)
  {
    if n >= 10 {
      DigitsAreNumeral(n / 10);
      var front := Digits(n / 10);
      assert Digits(n)[..|Digits(n)| - 1] == front;
      assert |front| == 1 ==> ValueOf(front) == ValueOf([]) * 10 + (front[0] as int - '0' as int);
    } else {
      assert ValueOf([Digit(n)]) == ValueOf([]) * 10 + (Digit(n) as int - '0' as int);
    }
  }

  /** An active entry bears this base name with the number `n`. */
  ghost predicate Bears(t: Table, base: string, n: nat) {
    exists e, d :: e in t && e.active && IsNumeral(d, n) && e.name == base + d
  }

  lemma ShortCandidate(base: string, n: nat)
    requires |base| < BASENAME_MAX && n <= PIDREG_MAX
    ensures Candidate(base, n) == base + Digits(n)
  {
    assert Pow10(2) == 100;
    DigitsLength(n, 2);
  }

  lemma TakenIsBorne(t: Table, base: string, n: nat)
    requires |base| < BASENAME_MAX && n <= PIDREG_MAX && Taken(t, Candidate(base, n))
    ensures Bears(t, base, n)
  {
    ShortCandidate(base, n);
    DigitsAreNumeral(n);
    var i :| 0 <= i < |t| && t[i].active && t[i].name == Candidate(base, n);
    assert t[i] in t;
  }

  /**
   * The registered name is at most the first 15 characters of the argument, and
   * behind them the smallest number that makes it different from every active
   * name; it is stored with the caller's pid in the first free slot.
   */
  lemma RegisteredName(t: Table, arg: string, pid: uint32) returns (n: nat, number: string)
    requires Register(t, Some(arg), pid).1.Some?
    ensures var (t', r) := Register(t, Some(arg), pid);
            var base := if |arg| <= 15 then arg else arg[..15];
            && r.value == base + number && IsNumeral(number, n)
            && (forall e | e in t && e.active :: e.name != r.value)
            && (forall m: nat | m < n :: Bears(t, base, m))
            && exists slot | 0 <= slot < PIDREG_MAX ::
                 && !t[slot].active && (forall j | 0 <= j < slot :: t[j].active)
                 && t' == t[slot := Entry(r.value, pid, true)]
  {
    var base := Take(arg, BASENAME_MAX - 1);
    n := SearchFree(t, base, 0);
    number := Digits(n);
    ActiveNamesBound(t);
    ShortCandidate(base, n);
    DigitsAreNumeral(n);
    forall e | e in t && e.active ensures e.name != Candidate(base, n) {
      var i :| 0 <= i < |t| && t[i] == e;
    }
    forall m: nat | m < n ensures Bears(t, base, m) {
      TakenIsBorne(t, base, m);
    }
  }

  /** A base name of more than 15 characters is not refused: its first 15 are registered. */
  lemma LongBaseNameIsTruncated(t: Table, arg: string, pid: uint32)
    requires |arg| >= BASENAME_MAX
    ensures Register(t, Some(arg), pid) == Register(t, Some(arg[..BASENAME_MAX - 1]), pid)
  {
  }

  /** What the header promises: too long a base name fails, too. */
  predicate Promised(t: Table, arg: Option<string>) {
    arg.Some? && 0 < |arg.value| < BASENAME_MAX && !Full(t)
  }

  /** The code keeps that promise exactly when the name is not too long, or the table is full anyway. */
  lemma PromiseKeptExactlyWhen(t: Table, arg: Option<string>, pid: uint32)
    ensures (Register(t, arg, pid).1.Some? <==> Promised(t, arg)) <==>
            (arg.Some? ==> |arg.value| < BASENAME_MAX || Full(t))
  {
    RegisterSucceedsExactlyWhen(t, arg, pid);
  }

  lemma SixteenCharactersAreAccepted(pid: uint32)
    ensures var empty: Table := seq(PIDREG_MAX, i requires 0 <= i < PIDREG_MAX => EMPTY);
            Register(empty, Some("abcdefghijklmnop"), pid).1.Some? && !Promised(empty, Some("abcdefghijklmnop"))
  {
    var empty: Table := seq(PIDREG_MAX, i requires 0 <= i < PIDREG_MAX => EMPTY);
    RegisterSucceedsExactlyWhen(empty, Some("abcdefghijklmnop"), pid);
    assert empty[0] in empty && !empty[0].active;
  }
}
