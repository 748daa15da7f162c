/** Which half of the frame table a process is at home in, and that it is served from there first. */
module Numa {
  import opened Prelude
  import opened MemoryModel

  /** The string hash without the wrap at 64 bits. */
  function Polynomial(s: string): nat {
    if s == [] then 0 else Polynomial(s[..|s| - 1]) * 31 + s[|s| - 1] as int
  }

  lemma {:induction false} HashIsPolynomial(s: string)
    ensures HashString(s) == Polynomial(s) % WORD
  {
    if s != [] {
      HashIsPolynomial(s[..|s| - 1]);
      WrapsOnce(Polynomial(s[..|s| - 1]), s[|s| - 1] as int);
    }
  }

  lemma WrapsOnce(p: nat, c: nat)
    ensures (p % WORD * 31 + c) % WORD == (p * 31 + c) % WORD
  {
  }

  function OddCharacters(s: string): nat {
    if s == [] then 0 else OddCharacters(s[..|s| - 1]) + s[|s| - 1] as int % 2
  }

  /** The hash is odd exactly if the name has an odd number of characters of odd code. */
  lemma {:induction false} HashParity(s: string)
    ensures HashString(s) % 2 == OddCharacters(s) % 2
  {
    if s != [] {
      var h, odd, c := HashString(s[..|s| - 1]), OddCharacters(s[..|s| - 1]), s[|s| - 1] as int;
      HashParity(s[..|s| - 1]);
      WrapKeepsParity(h * 31 + c);
      StepParity(h, odd, c);
    }
  }

  lemma WrapKeepsParity(x: nat)
    ensures x % WORD % 2 == x % 2
  {
    assert x == WORD * (x / WORD) + x % WORD;
  }

  lemma StepParity(h: nat, odd: nat, c: nat)
    requires h % 2 == odd % 2
    ensures (h * 31 + c) % 2 == (odd + c % 2) % 2
  {
    var q := h / 2 - odd / 2;
    assert h == odd + 2 * q && c == c % 2 + 2 * (c / 2);
    AddEven(odd + c % 2, 31 * q + 15 * odd + c / 2);
  }

  lemma AddEven(x: int, k: int)
    ensures (x + 2 * k) % 2 == x % 2
  {
  }

  /** The process's own half: the lower one if its name has an even number of characters of odd code. */
  predicate AtHome(pid: Pid, i: nat, n: nat) {
    i < n / 2 <==> OddCharacters(pid) % 2 == 0
  }

  /** With NUMA on, a process gets the first free frame of its own half, and one of the other half only if its own
      has none; with NUMA off, the first free frame of the table. */
  lemma HomeComesFirst<S>(m: Mem<S>, pid: Pid)
    ensures var n := |m.frames|;
            match PickFree(m, pid)
            case None => forall j :: 0 <= j < n ==> !m.frames[j].free
            case Some(i) =>
              && i < n && m.frames[i].free
              && if m.numa && exists j :: 0 <= j < n && m.frames[j].free && AtHome(pid, j, n)
                 then AtHome(pid, i, n) && forall j :: 0 <= j < i && AtHome(pid, j, n) ==> !m.frames[j].free
                 else forall j :: 0 <= j < i ==> !m.frames[j].free
  {
    HashParity(pid);
    hide HashString, OddCharacters;
  }

  /** A copy is not at home anywhere: it gets the first free frame of the table, and a victim's only if there is
      none. */
  lemma CopyTakesFirstFree<S(!new)>(pol: Policy<S>, m: Mem<S>, pid: Pid, v: nat, newId: nat, now: int, i: nat)
    requires Lawful(pol) && m.Has(pid, v)
    requires i < |m.frames| && m.frames[i].free && forall j :: 0 <= j < i ==> !m.frames[j].free
    ensures var r, id := MakeCopy(pol, m, pid, v, newId, now), m.tables[pid][v].id;
            r.ok && r.mem.Maps(pid, id, i) && r.mem.tables[pid][id].id == newId && !r.mem.tables[pid][id].shared
  {
    hide Lawful;
    assert FirstFree(m.frames, 0, |m.frames|) == Some(i);
  }
}
