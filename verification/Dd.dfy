/** Record blocking and unblocking, src/cmd/dd.c.

    `Converter` is the program's global state: the output buffer of `obs` characters, the
    column counter, the spaces held back and the count of truncated records.
 */
module Dd {
  import opened Basics
  import opened Words

  // ---- what the conversions mean ----

  /** The case flags of `conv=`. */
  datatype Case = Case(lower: bool, upper: bool) {
    function Map(c: char): char {
      var d := if upper && 'a' <= c <= 'z' then (c as int - 32) as char else c;
      if lower && 'A' <= d <= 'Z' then (d as int + 32) as char else d
    }

    function MapAll(s: string): (r: string)
      ensures |r| == |s| && forall k | 0 <= k < |s| :: r[k] == Map(s[k])
    {
      seq(|s|, k requires 0 <= k < |s| => Map(s[k]))
    }
  }

  function Spaces(n: nat): string { seq(n, _ => ' ') }

  /** Characters since the last newline. */
  function Column(t: string): nat
  {
    if t == [] || t[|t| - 1] == '\n' then 0 else 1 + Column(t[..|t| - 1])
  }

  /** Blocking, as a function of the text read so far. */
  function Blocked(t: string, cbs: nat, k: Case): string
  {
    if t == [] then []
    else
      var s, c := t[..|t| - 1], t[|t| - 1];
      Blocked(s, cbs, k) +
        (if c == '\n' then Spaces(cbs - Min(cbs, Column(s)))
         else if Column(s) < cbs then [k.Map(c)]
         else [])
  }

  /** The lines so far that are longer than a record. */
  function Overlong(t: string, cbs: nat): nat
  {
    if t == [] then 0
    else
      Overlong(t[..|t| - 1], cbs) +
        (if t[|t| - 1] != '\n' && Column(t[..|t| - 1]) == cbs then 1 else 0)
  }

  /** A string without its trailing spaces. */
  function Strip(s: string): (r: string)
    ensures |r| <= |s|
  {
    if s != [] && s[|s| - 1] == ' ' then Strip(s[..|s| - 1]) else s
  }

  /** Unblocking: every full record stripped and ended by a newline. */
  function Unblocked(t: string, cbs: nat, k: Case): string
    requires cbs > 0
  {
    if |t| < cbs then k.MapAll(Strip(t))
    else k.MapAll(Strip(t[..cbs])) + "\n" + Unblocked(t[cbs..], cbs, k)
  }

  /** Newline-terminated lines, joined. */
  function Text(lines: seq<string>): string
  {
    if lines == [] then [] else Text(lines[..|lines| - 1]) + lines[|lines| - 1] + "\n"
  }

  ghost predicate NoNewlines(lines: seq<string>)
  {
    forall k | 0 <= k < |lines| :: '\n' !in lines[k]
  }

  function Truncated(line: string, cbs: nat): string { line[..Min(cbs, |line|)] }

  /** The record of a line: cut or padded to exactly `cbs` characters. */
  function Record(line: string, cbs: nat, k: Case): (r: string)
    ensures |r| == cbs
  {
    k.MapAll(Truncated(line, cbs)) + Spaces(cbs - Min(cbs, |line|))
  }

  function Records(lines: seq<string>, cbs: nat, k: Case): string
  {
    if lines == [] then [] else Records(lines[..|lines| - 1], cbs, k) + Record(lines[|lines| - 1], cbs, k)
  }

  function CountOverlong(lines: seq<string>, cbs: nat): nat
  {
    if lines == [] then 0
    else CountOverlong(lines[..|lines| - 1], cbs) + (if |lines[|lines| - 1]| > cbs then 1 else 0)
  }

  lemma {:induction false} LineSoFar(t: string, line: string, cbs: nat, k: Case)
    requires Column(t) == 0 && '\n' !in line
    ensures Column(t + line) == |line|
    ensures Blocked(t + line, cbs, k) == Blocked(t, cbs, k) + k.MapAll(Truncated(line, cbs))
    ensures Overlong(t + line, cbs) == Overlong(t, cbs) + if |line| > cbs then 1 else 0
    decreases |line|
  {
    if line == [] {
      assert t + line == t;
    } else {
      var s, c := line[..|line| - 1], line[|line| - 1];
      assert line == s + [c] && (t + line)[..|t + line| - 1] == t + s;
      LineSoFar(t, s, cbs, k);
      OneMore(s, c, cbs, k);
      hide Case.MapAll, Truncated;
      assert Blocked(t + line, cbs, k) == Blocked(t + s, cbs, k) + (if |s| < cbs then [k.Map(c)] else []);
    }
  }

  lemma OneMore(s: string, c: char, cbs: nat, k: Case)
    ensures k.MapAll(Truncated(s + [c], cbs)) == k.MapAll(Truncated(s, cbs)) + (if |s| < cbs then [k.Map(c)] else [])
  {
    if |s| >= cbs { assert Truncated(s + [c], cbs) == Truncated(s, cbs); }
  }

  /** Blocking turns every newline-terminated line into one record of `cbs` characters. */
  lemma {:induction false} BlockedLines(lines: seq<string>, cbs: nat, k: Case)
    requires NoNewlines(lines)
    ensures Column(Text(lines)) == 0
    ensures Blocked(Text(lines), cbs, k) == Records(lines, cbs, k)
    ensures Overlong(Text(lines), cbs) == CountOverlong(lines, cbs)
  {
    hide Blocked, Column, Overlong, Case.MapAll;
    EmptyText(cbs, k);
    if lines != [] {
      var ls, line := lines[..|lines| - 1], lines[|lines| - 1];
      BlockedLines(ls, cbs, k);
      LineSoFar(Text(ls), line, cbs, k);
      EndOfLine(Text(ls) + line, cbs, k);
    }
  }

  lemma EndOfLine(t: string, cbs: nat, k: Case)
    ensures Column(t + "\n") == 0 && Overlong(t + "\n", cbs) == Overlong(t, cbs)
    ensures Blocked(t + "\n", cbs, k) == Blocked(t, cbs, k) + Spaces(cbs - Min(cbs, Column(t)))
  {
    assert (t + "\n")[..|t|] == t;
  }

  lemma {:induction false} StripPadding(s: string, n: nat)
    ensures Strip(s + Spaces(n)) == Strip(s)
    decreases n
  {
    if n == 0 {
      assert s + Spaces(0) == s;
    } else {
      assert (s + Spaces(n))[..|s| + n - 1] == s + Spaces(n - 1);
      StripPadding(s, n - 1);
    }
  }

  /** The lines that unblocking recovers: cut to a record, trailing spaces gone. */
  function Recovered(lines: seq<string>, cbs: nat, k: Case, k': Case): string
  {
    if lines == [] then []
    else
      Recovered(lines[..|lines| - 1], cbs, k, k') +
        k'.MapAll(Strip(k.MapAll(Truncated(lines[|lines| - 1], cbs)))) + "\n"
  }

  ghost predicate Whole(n: nat, cbs: nat)
    requires cbs > 0
  {
    n % cbs == 0
  }

  lemma {:induction false} UnblockedRecord(t: string, r: string, cbs: nat, k: Case)
    requires cbs > 0 && |r| == cbs && Whole(|t|, cbs)
    ensures Unblocked(t + r, cbs, k) == Unblocked(t, cbs, k) + k.MapAll(Strip(r)) + "\n"
    decreases |t|
  {
    if |t| < cbs {
      WholeRecords(|t|, cbs);
      assert t == [] && t + r == r && r[..cbs] == r && r[cbs..] == [];
      assert Unblocked([], cbs, k) == [];
    } else {
      assert (t + r)[..cbs] == t[..cbs] && (t + r)[cbs..] == t[cbs..] + r;
      OneLess(|t|, cbs);
      UnblockedRecord(t[cbs..], r, cbs, k);
    }
  }

  lemma WholeRecords(n: nat, cbs: nat)
    requires cbs > 0 && Whole(n, cbs) && n < cbs
    ensures n == 0
  {
  }

  lemma OneLess(n: nat, cbs: nat)
    requires cbs > 0 && n >= cbs
    ensures Whole(n - cbs, cbs) <==> Whole(n, cbs)
  {
    var q, r := n / cbs, n % cbs;
    assert n == q * cbs + r && n - cbs == (q - 1) * cbs + r;
    DivModUnique(n - cbs, cbs, q - 1, r);
  }

  lemma {:induction false} RecordsLength(lines: seq<string>, cbs: nat, k: Case)
    requires cbs > 0
    ensures Whole(|Records(lines, cbs, k)|, cbs)
  {
    if lines != [] {
      RecordsLength(lines[..|lines| - 1], cbs, k);
      OneLess(|Records(lines, cbs, k)|, cbs);
    }
  }

  lemma {:induction false} UnblockedRecords(lines: seq<string>, cbs: nat, k: Case, k': Case)
    requires cbs > 0
    ensures Unblocked(Records(lines, cbs, k), cbs, k') == Recovered(lines, cbs, k, k')
  {
    if lines == [] {
      assert Unblocked([], cbs, k') == [];
    } else {
      var ls, line := lines[..|lines| - 1], lines[|lines| - 1];
      UnblockedRecords(ls, cbs, k, k');
      RecordsLength(ls, cbs, k);
      UnblockedRecord(Records(ls, cbs, k), Record(line, cbs, k), cbs, k');
      StripPadding(k.MapAll(Truncated(line, cbs)), cbs - Min(cbs, |line|));
    }
  }

  /** Unblock after block: every line, cut to `cbs` and without its trailing spaces. */
  lemma RoundTrip(lines: seq<string>, cbs: nat, k: Case, k': Case)
    requires cbs > 0 && NoNewlines(lines)
    ensures Unblocked(Blocked(Text(lines), cbs, k), cbs, k') == Recovered(lines, cbs, k, k')
  {
    BlockedLines(lines, cbs, k);
    UnblockedRecords(lines, cbs, k, k');
  }

  /** Without case conversion, lines that fit and do not end in a space come back unchanged. */
  lemma {:induction false} RoundTripIdentity(lines: seq<string>, cbs: nat)
    requires cbs > 0 && NoNewlines(lines)
    requires forall j | 0 <= j < |lines| :: |lines[j]| <= cbs && Strip(lines[j]) == lines[j]
    ensures
      var none := Case(false, false);
      Unblocked(Blocked(Text(lines), cbs, none), cbs, none) == Text(lines)
  {
    var none := Case(false, false);
    RoundTrip(lines, cbs, none, none);
    if lines != [] {
      var ls, line := lines[..|lines| - 1], lines[|lines| - 1];
      RoundTripIdentity(ls, cbs);
      RoundTrip(ls, cbs, none, none);
      assert Truncated(line, cbs) == line && none.MapAll(line) == line;
    }
  }

  /** The whole conversions; `cbs=0` only converts case. */
  function BlockedText(t: string, cbs: nat, k: Case): string
  {
    if cbs == 0 then k.MapAll(t) else Blocked(t, cbs, k)
  }

  function UnblockedText(t: string, cbs: nat, k: Case): string
  {
    if cbs == 0 then k.MapAll(t) else Unblocked(t, cbs, k)
  }

  lemma EmptyText(cbs: nat, k: Case)
    ensures BlockedText([], cbs, k) == [] == Blocked([], cbs, k) && Column([]) == 0 && Overlong([], cbs) == 0
  {
  }

  // ---- the program ----

  function Concat(ws: seq<string>): string
  {
    if ws == [] then [] else Concat(ws[..|ws| - 1]) + ws[|ws| - 1]
  }

  class Converter {
    const obs: nat
    const cbs: nat
    const flags: Case
    const obuf: array<char>
    var op: nat
    var obc: nat
    var cbc: nat
    var nspace: nat
    var ntrunc: nat
    var nofr: nat
    var nopr: nat
    var writes: seq<string>     // what each `write` call put on the output

    ghost predicate Valid()
      reads this
    {
      && obs > 0 && obuf.Length == obs && op == obc < obs
      && nofr == |writes| && nopr == 0 && forall k | 0 <= k < |writes| :: |writes[k]| == obs
    }

    /** Everything put out so far, written or still in the buffer. */
    ghost function Output(): string
      requires obc <= obuf.Length
      reads this, obuf
    {
      Concat(writes) + obuf[..obc]
    }

    constructor (obs: nat, cbs: nat, flags: Case)
      requires obs > 0
      ensures Valid() && fresh(obuf) && Output() == []
      ensures this.obs == obs && this.cbs == cbs && this.flags == flags
      ensures cbc == 0 && nspace == 0 && ntrunc == 0
    {
      this.obs, this.cbs, this.flags := obs, cbs, flags;
      obuf := new char[obs](_ => ' ');
      op, obc, cbc, nspace, ntrunc, nofr, nopr := 0, 0, 0, 0, 0, 0, 0;
      writes := [];
    }

    /** `flsh`: write the buffer out as one full or partial record. */
    method Flsh()
      requires obs == obuf.Length && obc <= obs
      modifies this`obc, this`nofr, this`nopr, this`writes
      ensures obc == 0 && Concat(writes) == old(Output())
      ensures old(obc) == 0 ==> writes == old(writes) && nofr == old(nofr) && nopr == old(nopr)
      ensures old(obc) != 0 ==> writes == old(writes) + [old(obuf[..obc])]
      ensures old(obc) != 0 ==> nofr == old(nofr) + (if old(obc) == obs then 1 else 0)
      ensures old(obc) != 0 ==> nopr == old(nopr) + (if old(obc) == obs then 0 else 1)
    {
      if obc != 0 {
        if obc == obs { nofr := nofr + 1; } else { nopr := nopr + 1; }
        ghost var w := writes;
        writes := writes + [obuf[..obc]];
        assert writes[..|writes| - 1] == w;
        obc := 0;
      }
    }

    /** `null`: one character to the output buffer. */
    method Null(c: char)
      requires Valid()
      modifies this`op, this`obc, this`nofr, this`nopr, this`writes, obuf
      ensures Valid() && Output() == old(Output()) + [c]
    {
      ghost var w := Concat(writes);
      ghost var before := obuf[..obc];
      obuf[op] := c;
      op := op + 1;
      obc := obc + 1;
      assert obuf[..obc] == before + [c];
      assert Output() == w + (before + [c]) == w + before + [c];
      if obc >= obs {
        Flsh();
        op := 0;
        assert Output() == Concat(writes);
      }
    }

    /** `block`: one character of input into fixed-length records. */
    method Block(c: char, ghost t: string)
      requires Valid() && Output() == BlockedText(t, cbs, flags)
      requires if cbs == 0 then ntrunc == 0 else cbc == Column(t) && ntrunc == Overlong(t, cbs)
      modifies this, obuf
      ensures Valid() && Output() == BlockedText(t + [c], cbs, flags) && nspace == old(nspace)
      ensures if cbs == 0 then ntrunc == 0 else cbc == Column(t + [c]) && ntrunc == Overlong(t + [c], cbs)
    {
      assert (t + [c])[..|t|] == t;
      var d := flags.Map(c);
      if cbs == 0 {
        Null(d);
        assert flags.MapAll(t + [c]) == flags.MapAll(t) + [d];
        return;
      }
      if c == '\n' {
        ghost var start := cbc;
        while cbc < cbs
          invariant Valid() && start <= cbc && (start <= cbs ==> cbc <= cbs) && ntrunc == old(ntrunc)
          invariant start > cbs ==> cbc == start
          invariant nspace == old(nspace)
          invariant Output() == old(Output()) + Spaces(cbc - start)
        {
          Null(' ');
          cbc := cbc + 1;
          assert Spaces(cbc - start) == Spaces(cbc - 1 - start) + [' '];
        }
        cbc := 0;
        return;
      }
      if cbc == cbs { ntrunc := ntrunc + 1; }
      cbc := cbc + 1;
      if cbc <= cbs { Null(d); }
    }

    /** Whole records `done` are out, and `part` of the next but for its trailing spaces. */
    ghost predicate Unblocking(done: string, part: string)
      reads this, obuf
    {
      && Valid()
      && if cbs == 0 then part == [] && Output() == flags.MapAll(done)
         else
           && cbc == |part| < cbs && Whole(|done|, cbs) && |Strip(part)| + nspace == |part|
           && Output() == Unblocked(done, cbs, flags) + flags.MapAll(Strip(part))
    }

    /** `unblock`: one character of fixed-length records; `part` is the record so far. */
    method Unblock(c: char, ghost done: string, ghost part: string) returns (ghost done': string, ghost part': string)
      requires Unblocking(done, part)
      modifies this, obuf
      ensures Unblocking(done', part') && done' + part' == done + part + [c]
    {
      if cbs == 0 {
        Null(flags.Map(c));
        assert flags.MapAll(done + [c]) == flags.MapAll(done) + [flags.Map(c)];
        return done + [c], [];
      }
      hide Unblocked, Concat, Whole, Strip, Case.MapAll;
      ghost var all := part + [c];
      ghost var u := Unblocked(done, cbs, flags);
      assert done + all == done + part + [c];
      Put(c, part);
      assert Output() == u + flags.MapAll(Strip(all));
      cbc := cbc + 1;
      done', part' := done, all;
      if cbc >= cbs {
        EndRecord(done, all);
        done', part' := done + all, [];
      }
    }

    /** A full record ends in a newline. */
    method EndRecord(ghost done: string, ghost all: string)
      requires Valid() && cbs == |all| > 0 && Whole(|done|, cbs)
      requires Output() == Unblocked(done, cbs, flags) + flags.MapAll(Strip(all))
      modifies this, obuf
      ensures Unblocking(done + all, [])
    {
      hide Unblocked, Concat, Whole, Strip, Case.MapAll;
      Null('\n');
      cbc := 0;
      nspace := 0;
      UnblockedRecord(done, all, cbs, flags);
      OneLess(|done + all|, cbs);
      StripEmpty();
      assert Output() == Unblocked(done + all, cbs, flags) == Unblocked(done + all, cbs, flags) + [];
    }

    lemma StripEmpty()
      ensures Strip([]) == [] && flags.MapAll([]) == []
    {
    }

    /** Hold a space back, or put out the spaces held back and the character. */
    method Put(c: char, ghost part: string)
      requires Valid() && |Strip(part)| + nspace == |part|
      modifies this`op, this`obc, this`nofr, this`nopr, this`writes, this`nspace, obuf
      ensures Valid() && |Strip(part + [c])| + nspace == |part + [c]|
      ensures forall u | old(Output()) == u + flags.MapAll(Strip(part)) ::
                Output() == u + flags.MapAll(Strip(part + [c]))
    {
      hide Concat;
      ghost var all := part + [c];
      assert all[..|part|] == part;
      if c == ' ' {
        nspace := nspace + 1;
      } else {
        Release(part);
        StripPrefix(part);
        Null(flags.Map(c));
        assert Strip(all) == all && flags.MapAll(all) == flags.MapAll(part) + [flags.Map(c)];
      }
    }

    /** The spaces held back go out before the next other character. */
    method Release(ghost part: string)
      requires Valid() && |Strip(part)| + nspace == |part|
      modifies this`op, this`obc, this`nofr, this`nopr, this`writes, this`nspace, obuf
      ensures Valid() && nspace == 0
      ensures Output() == old(Output()) + Spaces(old(nspace))
    {
      while nspace > 0
        invariant Valid() && nspace <= old(nspace)
        invariant Output() == old(Output()) + Spaces(old(nspace) - nspace)
      {
        Null(' ');
        nspace := nspace - 1;
        assert Spaces(old(nspace) - nspace) == Spaces(old(nspace) - nspace - 1) + [' '];
      }
    }

    lemma StripPrefix(part: string)
      ensures part == Strip(part) + Spaces(|part| - |Strip(part)|)
      ensures flags.MapAll(part) == flags.MapAll(Strip(part)) + Spaces(|part| - |Strip(part)|)
    {
      StripIsPrefix(part);
    }

    /** `conv=block`: the output does not depend on `obs`, only on the text and `cbs`. */
    method BlockAll(input: string)
      requires Valid() && Output() == [] && cbc == 0 && ntrunc == 0
      modifies this, obuf
      ensures Concat(writes) == BlockedText(input, cbs, flags)
      ensures ntrunc == if cbs == 0 then 0 else Overlong(input, cbs)
    {
      hide BlockedText, Column, Overlong, Concat;
      EmptyText(cbs, flags);
      var n := 0;
      while n < |input|
        invariant 0 <= n <= |input| && Valid()
        invariant if cbs == 0 then ntrunc == 0 else cbc == Column(input[..n]) && ntrunc == Overlong(input[..n], cbs)
        invariant Output() == BlockedText(input[..n], cbs, flags)
      {
        Block(input[n], input[..n]);
        assert input[..n] + [input[n]] == input[..n + 1];
        n := n + 1;
      }
      assert input[..n] == input;
      Flsh();
    }

    /** `conv=unblock` */
    method UnblockAll(input: string)
      requires Valid() && Output() == [] && cbc == 0 && nspace == 0
      modifies this, obuf
      ensures Concat(writes) == UnblockedText(input, cbs, flags)
    {
      ghost var done, part := "", "";
      var n := 0;
      while n < |input|
        invariant 0 <= n <= |input| && Unblocking(done, part) && done + part == input[..n]
      {
        done, part := Unblock(input[n], done, part);
        assert input[..n] + [input[n]] == input[..n + 1];
        n := n + 1;
      }
      assert input[..n] == input;
      Flsh();
      if cbs > 0 { UnblockedPart(done, part, cbs, flags); }
    }
  }

  /** One `dd` into another: for any block sizes on either side, every line comes back cut to `cbs` and
      without its trailing spaces, and `ntrunc` counts the lines that were cut. */
  method BlockThenUnblock(lines: seq<string>, cbs: nat, obs: nat, obs': nat, k: Case, k': Case)
    returns (out: string, ntrunc: nat)
    requires cbs > 0 && obs > 0 && obs' > 0 && NoNewlines(lines)
    ensures out == Recovered(lines, cbs, k, k') && ntrunc == CountOverlong(lines, cbs)
  {
    var first := new Converter(obs, cbs, k);
    first.BlockAll(Text(lines));
    var second := new Converter(obs', cbs, k');
    second.UnblockAll(Concat(first.writes));
    out, ntrunc := Concat(second.writes), first.ntrunc;
    RoundTrip(lines, cbs, k, k');
    BlockedLines(lines, cbs, k);
  }

  lemma {:induction false} StripIsPrefix(s: string)
    ensures |Strip(s)| <= |s| && s == Strip(s) + Spaces(|s| - |Strip(s)|)
  {
    if s != [] && s[|s| - 1] == ' ' {
      StripIsPrefix(s[..|s| - 1]);
      var n := |s| - |Strip(s)|;
      assert Spaces(n) == Spaces(n - 1) + [' '];
    }
  }

  lemma {:induction false} UnblockedPart(done: string, part: string, cbs: nat, k: Case)
    requires cbs > 0 && Whole(|done|, cbs) && |part| < cbs
    ensures Unblocked(done + part, cbs, k) == Unblocked(done, cbs, k) + k.MapAll(Strip(part))
    decreases |done|
  {
    if |done| < cbs {
      WholeRecords(|done|, cbs);
      assert done + part == part && Unblocked(done, cbs, k) == [];
    } else {
      assert (done + part)[..cbs] == done[..cbs] && (done + part)[cbs..] == done[cbs..] + part;
      OneLess(|done|, cbs);
      UnblockedPart(done[cbs..], part, cbs, k);
    }
  }
}
