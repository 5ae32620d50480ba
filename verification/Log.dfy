/**
 hal/log.cpp: NUL-terminated strings packed back to back into a buffer, searched
 by walking over them. The object stands for the sequence of its entries.
 */
module Log {

  const NUL: char := '\0'

  type CString = s: string | forall i :: 0 <= i < |s| ==> s[i] != NUL

  // ----- packed strings -----

  function Pack(es: seq<CString>): string {
    if es == [] then "" else Pack(es[..|es| - 1]) + es[|es| - 1] + [NUL]
  }

  // The first NUL at or after i, |b| if there is none.
  function FirstNul(b: string, i: nat): (j: nat)
    requires i <= |b|
    ensures i <= j <= |b| && (j < |b| ==> b[j] == NUL) && forall k :: i <= k < j ==> b[k] != NUL
    decreases |b| - i
  {
    if i == |b| || b[i] == NUL then i else FirstNul(b, i + 1)
  }

  // The strings of b from i on; an unterminated rest is not one.
  function Parse(b: string, i: nat): (es: seq<CString>)
    requires i <= |b|
    decreases |b| - i
  {
    var j := FirstNul(b, i);
    if j == |b| then [] else [b[i..j]] + Parse(b, j + 1)
  }

  lemma {:induction false} PackAt(es: seq<CString>, k: nat)
    requires k < |es|
    ensures |Pack(es[..k])| + |es[k]| + 1 <= |Pack(es)|
    ensures Pack(es)[..|Pack(es[..k])|] == Pack(es[..k])
    ensures Pack(es)[|Pack(es[..k])|..|Pack(es[..k])| + |es[k]|] == es[k]
    ensures Pack(es)[|Pack(es[..k])| + |es[k]|] == NUL
    ensures |Pack(es[..k + 1])| == |Pack(es[..k])| + |es[k]| + 1
    decreases |es|
  {
    var front := es[..|es| - 1];
    assert es[..k + 1][..k] == es[..k];
    if k < |es| - 1 {
      PackAt(front, k);
      assert front[..k] == es[..k];
      var n := |Pack(es[..k])|;
      assert Pack(es)[..|Pack(front)|] == Pack(front);
      assert Pack(es)[n..n + |es[k]|] == Pack(front)[n..n + |es[k]|];
    }
  }

  lemma ParseStep(b: string, i: nat, e: CString)
    requires i + |e| < |b| && b[i..i + |e|] == e && b[i + |e|] == NUL
    ensures Parse(b, i) == [e] + Parse(b, i + |e| + 1)
  {
    assert forall k :: i <= k < i + |e| ==> b[k] == e[k - i];
    assert FirstNul(b, i) == i + |e|;
  }

  lemma ParseEnd(b: string)
    ensures Parse(b, |b|) == []
  {
  }

  // Where the walk over the packed strings stands after k of them.
  lemma {:induction false} ParseFrom(es: seq<CString>, k: nat)
    requires k <= |es|
    ensures |Pack(es[..k])| <= |Pack(es)| && Parse(Pack(es), |Pack(es[..k])|) == es[k..]
    decreases |es| - k
  {
    hide Pack, Parse;
    if k == |es| {
      assert es[..k] == es;
      ParseEnd(Pack(es));
    } else {
      PackAt(es, k);
      ParseFrom(es, k + 1);
      ParseStep(Pack(es), |Pack(es[..k])|, es[k]);
    }
  }

  /** The packed bytes parse back to the entries. */
  lemma ParsePack(es: seq<CString>)
    ensures Parse(Pack(es), 0) == es
  {
    ParseFrom(es, 0);
    assert Pack(es[..0]) == "";
  }

  /** And to no others. */
  lemma PackUnique(es: seq<CString>, fs: seq<CString>)
    requires Pack(es) == Pack(fs)
    ensures es == fs
  {
    ParsePack(es);
    ParsePack(fs);
  }

  lemma PackSnoc(es: seq<CString>, s: CString)
    ensures Pack(es + [s]) == Pack(es) + s + [NUL]
  {
    assert (es + [s])[..|es|] == es;
  }

  predicate HasPrefix(s: string, p: string) {
    |p| <= |s| && s[..|p|] == p
  }

  predicate SomeHasPrefix(es: seq<CString>, p: string) {
    exists i :: 0 <= i < |es| && HasPrefix(es[i], p)
  }

  // None of the first k entries has the prefix.
  predicate NoPrefixAmong(es: seq<CString>, k: nat, p: string) {
    forall i :: 0 <= i < k && i < |es| ==> !HasPrefix(es[i], p)
  }

  lemma NoPrefixYet(es: seq<CString>, p: string)
    ensures NoPrefixAmong(es, 0, p)
  {
  }

  lemma PrefixStep(es: seq<CString>, k: nat, p: string)
    requires p != "" && k <= |es| && NoPrefixAmong(es, k, p)
    ensures var e := if k < |es| then es[k] else "";
            if HasPrefix(e, p) then SomeHasPrefix(es, p) else NoPrefixAmong(es, k + 1, p)
  {
  }

  lemma PrefixNotFound(es: seq<CString>, k: nat, p: string)
    requires k >= |es| && NoPrefixAmong(es, k, p)
    ensures !SomeHasPrefix(es, p)
  {
  }

  // ----- walking over packed strings -----

  // b starts with the packed entries es, used bytes in all, and some NUL follows the byte after them.
  ghost predicate Packed(b: string, used: nat, es: seq<CString>) {
    && used < |b| && b[..used] == Pack(es)
    && exists j :: used < j < |b| && b[j] == NUL
  }

  // The walk is at entry k.
  ghost predicate At(es: seq<CString>, next: nat, k: nat) {
    k <= |es| && next == |Pack(es[..k])|
  }

  lemma EntryBytes(b: string, used: nat, es: seq<CString>, next: nat, k: nat)
    requires Packed(b, used, es) && At(es, next, k) && k < |es|
    ensures var stop := next + |es[k]|;
            stop < used && b[next..stop] == es[k] && b[stop] == NUL && At(es, stop + 1, k + 1)
  {
    PackAt(es, k);
    var stop := next + |es[k]|;
    var p := b[..used];
    assert b[next..stop] == p[next..stop];
    assert b[stop] == p[stop];
  }

  // A string of length n starts at i.
  predicate StringAt(b: string, i: nat, n: nat) {
    i + n < |b| && b[i + n] == NUL && forall j :: i <= j < i + n ==> b[j] != NUL
  }

  // strlen ends.
  ghost predicate Terminates(b: string, i: nat) {
    exists j :: i <= j < |b| && b[j] == NUL
  }

  lemma StringAtEntry(b: string, i: nat, n: nat, s: CString)
    requires i + |s| < |b| && b[i..i + |s|] == s && b[i + |s|] == NUL && StringAt(b, i, n)
    ensures n == |s|
  {
    assert forall j :: i <= j < i + |s| ==> b[j] == s[j - i];
  }

  // The walk is at entry k, or one byte past the byte after the entries.
  ghost predicate Walk(b: string, used: nat, es: seq<CString>, next: nat, k: nat) {
    Packed(b, used, es) && (At(es, next, k) || (next == used + 1 && k == |es| + 1))
  }

  lemma WalkTerminates(b: string, used: nat, es: seq<CString>, next: nat, k: nat)
    requires Walk(b, used, es, next, k)
    ensures used < |b| && Terminates(b, next)
  {
    if At(es, next, k) && k < |es| {
      EntryBytes(b, used, es, next, k);
    } else {
      assert es[..|es|] == es;
    }
  }

  lemma WalkStarts(b: string, used: nat, es: seq<CString>)
    requires Packed(b, used, es)
    ensures Walk(b, used, es, 0, 0)
  {
  }

  // A turn of the loop sees entry k, or the empty string after the entries.
  lemma WalkStep(b: string, used: nat, es: seq<CString>, next: nat, length: nat, k: nat)
    requires Walk(b, used, es, next, k) && StringAt(b, next, length) && next + length <= used
    ensures k <= |es| && b[next..next + length] == if k < |es| then es[k] else ""
    ensures k == |es| ==> used < |b| && b[used] == NUL
    ensures Walk(b, used, es, next + length + 1, k + 1)
  {
    if k < |es| {
      EntryBytes(b, used, es, next, k);
      StringAtEntry(b, next, length, es[k]);
    } else {
      assert es[..|es|] == es;
    }
  }

  lemma WalkEnds(b: string, used: nat, es: seq<CString>, next: nat, length: nat, k: nat)
    requires Walk(b, used, es, next, k) && StringAt(b, next, length) && next + length > used
    ensures k >= |es| && used < |b| && (k == |es| ==> b[used] != NUL)
  {
    if k < |es| {
      EntryBytes(b, used, es, next, k);
      assert false;
    } else {
      assert es[..|es|] == es;
    }
  }

  // ----- searching -----

  // What a search for s has to answer: the byte after the entries may look like an empty string.
  predicate Matches(b: string, used: nat, es: seq<CString>, s: string)
    requires used < |b|
  {
    s in es || (s == "" && b[used] == NUL)
  }

  // The search has passed k strings without finding s.
  predicate Missed(b: string, used: nat, es: seq<CString>, k: nat, s: string)
    requires used < |b|
  {
    (forall i :: 0 <= i < k && i < |es| ==> es[i] != s) && (k > |es| && s == "" ==> b[used] != NUL)
  }

  lemma SearchStarts(b: string, used: nat, es: seq<CString>, s: string)
    requires Packed(b, used, es)
    ensures Missed(b, used, es, 0, s)
  {
  }

  lemma SearchStep(b: string, used: nat, es: seq<CString>, k: nat, s: string)
    requires used < |b| && k <= |es| && Missed(b, used, es, k, s) && (k == |es| ==> b[used] == NUL)
    ensures var e := if k < |es| then es[k] else "";
            if e == s then Matches(b, used, es, s) else Missed(b, used, es, k + 1, s)
  {
  }

  lemma NotFound(b: string, used: nat, es: seq<CString>, k: nat, s: string)
    requires used < |b| && k >= |es| && Missed(b, used, es, k, s) && (k == |es| ==> b[used] != NUL)
    ensures !Matches(b, used, es, s)
  {
  }

  // ----- the object -----

  // Bytes b with the message and its terminator at position at.
  function Copied(b: string, at: nat, m: CString): (r: string)
    requires at + |m| < |b|
    ensures |r| == |b|
  {
    b[..at] + m + [NUL] + b[at + |m| + 1..]
  }

  // Byte by byte.
  lemma CopiedBytes(b: string, at: nat, m: CString)
    requires at + |m| < |b|
    ensures var c := Copied(b, at, m);
            && (forall k :: 0 <= k < at || at + |m| < k < |b| ==> c[k] == b[k])
            && (forall k :: 0 <= k < |m| ==> c[at + k] == m[k])
            && c[at + |m|] == '\0'
  {
  }

  lemma CopiedPack(b: string, at: nat, es: seq<CString>, m: CString)
    requires at + |m| < |b| && b[..at] == Pack(es)
    ensures Copied(b, at, m)[..at + |m| + 1] == Pack(es + [m])
    ensures Copied(b, at, m)[at + |m| + 1..] == b[at + |m| + 1..]
  {
    PackSnoc(es, m);
    assert b[..at] + m + [NUL] == Pack(es + [m]);
  }

  const ENTRY_LIMIT := 100   // bytes with terminator, for add_entry and contains_entry
  const PREFIX_LIMIT := 50   // for contains_entry_starting_with

  /** What add_entry makes of the entries: nothing is stored if the message or the space is too long. */
  predicate Accepts(es: seq<CString>, maxEntries: nat, m: CString) {
    |m| + 1 <= ENTRY_LIMIT && |Pack(es)| + |m| + 1 <= maxEntries
  }

  class Log {
    // The buffer and the memory behind it, which the searches may read.
    const data: array<char>
    const maxEntries: nat
    var nextEntryIndex: nat
    var numRemaining: nat

    ghost predicate Valid()
      reads this, data
    {
      && maxEntries <= data.Length <= 0x10000
      && nextEntryIndex + numRemaining == maxEntries
      && data[..nextEntryIndex] == Pack(Entries())
      && forall i :: 0 <= i < |Entries()| ==> |Entries()[i]| < ENTRY_LIMIT
    }

    /** The entries that the used bytes parse to. */
    ghost function Entries(): seq<CString>
      reads this, data
    {
      if nextEntryIndex <= data.Length then Parse(data[..nextEntryIndex], 0) else []
    }

    // Some NUL follows the first byte after the entries, so that every strlen ends.
    ghost predicate Terminated()
      reads this, data
    {
      exists j :: nextEntryIndex < j < data.Length && data[..][j] == NUL
    }

    constructor (buf: array<char>, size: nat)
      requires size <= buf.Length <= 0x10000
      ensures Valid() && Entries() == [] && data == buf && maxEntries == size
      ensures nextEntryIndex == 0 && numRemaining == size
    {
      data, maxEntries := buf, size;
      nextEntryIndex, numRemaining := 0, size;
    }

    method Clear()
      requires Valid()
      modifies this`nextEntryIndex, this`numRemaining
      ensures Valid() && Entries() == [] && nextEntryIndex == 0 && numRemaining == maxEntries
    {
      nextEntryIndex := 0;
      numRemaining := maxEntries;
    }

    /** Used plus remaining bytes make up the buffer. */
    method NumUnusedEntries() returns (n: nat)
      requires Valid()
      ensures n == maxEntries - |Pack(Entries())| == maxEntries - nextEntryIndex
    {
      n := numRemaining;
    }

    // memcpy of a message and its terminator.
    method CopyIn(at: nat, m: CString)
      requires at + |m| < data.Length
      modifies data
      ensures data[..] == Copied(old(data[..]), at, m)
    {
      var i := 0;
      while i < |m|
        invariant 0 <= i <= |m|
        invariant forall k :: 0 <= k < data.Length ==> data[k] == if at <= k < at + i then m[k - at] else old(data[k])
      {
        data[at + i] := m[i];
        i := i + 1;
      }
      data[at + |m|] := NUL;
    }

    /** The public add_entry: messages of up to 99 characters, if they fit. */
    method AddEntry(m: CString) returns (ok: bool)
      requires Valid()
      modifies this`nextEntryIndex, this`numRemaining, data
      ensures Valid()
      ensures ok <==> Accepts(old(Entries()), maxEntries, m)
      ensures ok <==> |m| <= 99 && |m| + 1 <= old(numRemaining)
      ensures Entries() == old(Entries()) + (if ok then [m] else [])
      ensures numRemaining == old(numRemaining) - (if ok then |m| + 1 else 0)
      ensures nextEntryIndex == old(nextEntryIndex) + (if ok then |m| + 1 else 0)
      ensures ok ==> forall k :: 0 <= k < |m| ==> data[old(nextEntryIndex) + k] == m[k]
      ensures ok ==> data[nextEntryIndex - 1] == '\0'
      ensures forall k :: 0 <= k < old(nextEntryIndex) || nextEntryIndex <= k < data.Length ==> data[k] == old(data[k])
    {
      if |m| + 1 > ENTRY_LIMIT {
        return false;
      }
      ok := AddBytes(m);
    }

    method AddBytes(m: CString) returns (ok: bool)
      requires Valid() && |m| < ENTRY_LIMIT
      modifies this`nextEntryIndex, this`numRemaining, data
      ensures Valid()
      ensures ok <==> Accepts(old(Entries()), maxEntries, m)
      ensures ok <==> |m| + 1 <= old(numRemaining)
      ensures Entries() == old(Entries()) + (if ok then [m] else [])
      ensures numRemaining == old(numRemaining) - (if ok then |m| + 1 else 0)
      ensures nextEntryIndex == old(nextEntryIndex) + (if ok then |m| + 1 else 0)
      ensures ok ==> forall k :: 0 <= k < |m| ==> data[old(nextEntryIndex) + k] == m[k]
      ensures ok ==> data[nextEntryIndex - 1] == '\0'
      ensures forall k :: 0 <= k < old(nextEntryIndex) || nextEntryIndex <= k < data.Length ==> data[k] == old(data[k])
    {
      ghost var es := Entries();
      hide Pack, Parse, Copied;
      if |m| + 1 > numRemaining {
        return false;
      }
      Append(m, es);
      ok := true;
    }

    // The bytes and the counters of an entry that fits.
    method Append(m: CString, ghost es: seq<CString>)
      requires maxEntries <= data.Length && nextEntryIndex + numRemaining == maxEntries && |m| + 1 <= numRemaining
      requires data[..nextEntryIndex] == Pack(es)
      modifies this`nextEntryIndex, this`numRemaining, data
      ensures numRemaining == old(numRemaining) - (|m| + 1) && nextEntryIndex == old(nextEntryIndex) + |m| + 1
      ensures data[..nextEntryIndex] == Pack(es + [m]) && Entries() == es + [m]
      ensures forall k :: 0 <= k < |m| ==> data[old(nextEntryIndex) + k] == m[k]
      ensures data[nextEntryIndex - 1] == '\0'
      ensures forall k :: 0 <= k < old(nextEntryIndex) || nextEntryIndex <= k < data.Length ==> data[k] == old(data[k])
    {
      hide Pack, Parse, Copied;
      ghost var b := data[..];
      CopyIn(nextEntryIndex, m);
      CopiedBytes(b, nextEntryIndex, m);
      CopiedPack(b, nextEntryIndex, es, m);
      ParsePack(es + [m]);
      nextEntryIndex := nextEntryIndex + |m| + 1;
      numRemaining := numRemaining - (|m| + 1);
      assert data[..nextEntryIndex] == data[..][..nextEntryIndex];
      assert forall k :: 0 <= k < data.Length ==> data[k] == data[..][k] && old(data[k]) == b[k];
    }

    method StrLen(i: nat, ghost b: string) returns (n: nat)
      requires b == data[..] && Terminates(b, i)
      ensures StringAt(b, i, n)
    {
      n := 0;
      ghost var stop :| i <= stop < |b| && b[stop] == NUL;
      while data[i + n] != NUL
        invariant i + n <= stop && forall j :: i <= j < i + n ==> b[j] != NUL
        decreases stop - n
      {
        n := n + 1;
      }
    }

    // strcmp(data + i, s) == 0, where a string of length n starts at i.
    method EqualAt(i: nat, s: CString, ghost n: nat, ghost b: string) returns (equal: bool)
      requires b == data[..] && StringAt(b, i, n)
      ensures equal <==> b[i..i + n] == s
    {
      var j := 0;
      while j < |s|
        invariant j <= |s| && j <= n && b[i..i + j] == s[..j]
      {
        if data[i + j] != s[j] {
          assert j < n ==> b[i..i + n][j] != s[j];
          return false;
        }
        j := j + 1;
      }
      equal := data[i + j] == NUL;
      assert equal ==> j == n;
    }

    // strncmp(data + i, s, strlen(s)) == 0.
    method PrefixAt(i: nat, s: CString, ghost n: nat, ghost b: string) returns (found: bool)
      requires b == data[..] && StringAt(b, i, n)
      ensures found <==> HasPrefix(b[i..i + n], s)
    {
      var j := 0;
      while j < |s|
        invariant j <= |s| && j <= n && b[i..i + j] == s[..j]
      {
        if data[i + j] != s[j] {
          assert j < n && |s| <= n ==> b[i..i + n][..|s|][j] != s[j];
          return false;
        }
        j := j + 1;
      }
      assert b[i..i + n][..|s|] == b[i..i + |s|];
      found := true;
    }

    lemma PackedData()
      requires Valid() && Terminated()
      ensures Packed(data[..], nextEntryIndex, Entries())
    {
    }

    /** The public contains_entry: too long an expected entry is never found. */
    method ContainsEntry(expected: CString) returns (found: bool)
      requires Valid() && Terminated()
      ensures expected != "" ==> (found <==> expected in Entries())
      ensures expected == "" ==> (found <==> "" in Entries() || data[nextEntryIndex] == '\0')
    {
      if |expected| + 1 > ENTRY_LIMIT {
        return false;
      }
      found := ContainsBytes(expected);
    }

    method ContainsBytes(expected: CString) returns (found: bool)
      requires Valid() && Terminated()
      ensures nextEntryIndex < data.Length && (found <==> Matches(data[..], nextEntryIndex, Entries(), expected))
    {
      PackedData();
      found := Search(expected, data[..], Entries());
    }

    method Search(expected: CString, ghost b: string, ghost es: seq<CString>) returns (found: bool)
      requires b == data[..] && Packed(b, nextEntryIndex, es)
      ensures nextEntryIndex < |b| && (found <==> Matches(b, nextEntryIndex, es, expected))
    {
      assert nextEntryIndex < |b|;
      hide *;
      SearchStarts(b, nextEntryIndex, es, expected);
      WalkStarts(b, nextEntryIndex, es);
      var next: nat := 0;
      WalkTerminates(b, nextEntryIndex, es, 0, 0);
      var length := StrLen(next, b);
      ghost var k := 0;
      while next + length <= nextEntryIndex
        invariant Walk(b, nextEntryIndex, es, next, k) && StringAt(b, next, length)
        invariant Missed(b, nextEntryIndex, es, k, expected)
        decreases nextEntryIndex + 1 - next
      {
        WalkStep(b, nextEntryIndex, es, next, length, k);
        SearchStep(b, nextEntryIndex, es, k, expected);
        if |expected| == length {
          var equal := EqualAt(next, expected, length, b);
          if equal {
            return true;
          }
        }
        k := k + 1;
        next := next + length + 1;
        WalkTerminates(b, nextEntryIndex, es, next, k);
        length := StrLen(next, b);
      }
      WalkEnds(b, nextEntryIndex, es, next, length, k);
      NotFound(b, nextEntryIndex, es, k, expected);
      found := false;
    }

    /** The public contains_entry_starting_with: it looks for at most 49 characters, and never for none. */
    method ContainsEntryStartingWith(expected: CString) returns (found: bool)
      requires Valid() && Terminated()
      ensures found <==>
                && 0 < |expected| <= 49
                && exists i :: && 0 <= i < |Entries()| && |expected| <= |Entries()[i]|
                               && Entries()[i][..|expected|] == expected
    {
      if |expected| + 1 > PREFIX_LIMIT {
        return false;
      }
      found := ContainsPrefix(expected);
    }

    method ContainsPrefix(expected: CString) returns (found: bool)
      requires Valid() && Terminated()
      ensures found <==> expected != "" && SomeHasPrefix(Entries(), expected)
    {
      if |expected| == 0 {
        return false;
      }
      ghost var b, es := data[..], Entries();
      PackedData();
      hide *;
      NoPrefixYet(es, expected);
      WalkStarts(b, nextEntryIndex, es);
      var next: nat := 0;
      WalkTerminates(b, nextEntryIndex, es, 0, 0);
      var length := StrLen(next, b);
      ghost var k := 0;
      while next + length <= nextEntryIndex
        invariant Walk(b, nextEntryIndex, es, next, k) && StringAt(b, next, length)
        invariant NoPrefixAmong(es, k, expected)
        decreases nextEntryIndex + 1 - next
      {
        WalkStep(b, nextEntryIndex, es, next, length, k);
        PrefixStep(es, k, expected);
        var matches := PrefixAt(next, expected, length, b);
        if matches {
          return true;
        }
        k := k + 1;
        next := next + length + 1;
        WalkTerminates(b, nextEntryIndex, es, next, k);
        length := StrLen(next, b);
      }
      WalkEnds(b, nextEntryIndex, es, next, length, k);
      PrefixNotFound(es, k, expected);
      found := false;
    }
  }

  // ----- whole histories -----

  datatype Call = AddCall(m: CString) | ClearCall

  /** What a sequence of calls leaves: the accepted messages since the last clear. */
  function After(es: seq<CString>, maxEntries: nat, calls: seq<Call>): (r: seq<CString>)
    decreases |calls|
  {
    if calls == [] then es
    else
      match calls[0]
      case ClearCall => After([], maxEntries, calls[1..])
      case AddCall(m) => After(if Accepts(es, maxEntries, m) then es + [m] else es, maxEntries, calls[1..])
  }

  /** The object follows it under any calls, and its bytes are the packed form of it and of nothing else. */
  method Replay(log: Log, calls: seq<Call>)
    requires log.Valid()
    modifies log`nextEntryIndex, log`numRemaining, log.data
    ensures log.Valid() && log.Entries() == After(old(log.Entries()), log.maxEntries, calls)
    ensures forall es: seq<CString> :: Pack(es) == log.data[..log.nextEntryIndex] ==> es == log.Entries()
  {
    hide Pack, Parse, Accepts;
    var i := 0;
    while i < |calls|
      invariant 0 <= i <= |calls| && log.Valid()
      invariant After(log.Entries(), log.maxEntries, calls[i..]) == After(old(log.Entries()), log.maxEntries, calls)
    {
      assert calls[i..][0] == calls[i] && calls[i..][1..] == calls[i + 1..];
      match calls[i] {
        case ClearCall => log.Clear();
        case AddCall(m) =>
          ghost var es := log.Entries();
          var ok := log.AddEntry(m);
          assert es + [] == es;
      }
      i := i + 1;
    }
    assert calls[i..] == [];
    forall es: seq<CString> | Pack(es) == log.data[..log.nextEntryIndex]
      ensures es == log.Entries()
    {
      PackUnique(es, log.Entries());
    }
  }

  /**
   The prefix search is not complete: an entry of 50 to 99 characters is stored and
   found by contains_entry, but not by a prefix search for the whole of it.
   */
  method LongPrefixIsMissed(log: Log, m: CString) returns (stored: bool, whole: bool, start: bool)
    requires log.Valid() && 50 <= |m| <= 99
    requires log.numRemaining > |m|
    requires exists j :: log.nextEntryIndex + |m| + 1 < j < log.data.Length && log.data[..][j] == NUL
    modifies log`nextEntryIndex, log`numRemaining, log.data
    ensures stored && whole && !start
    ensures m in log.Entries() && SomeHasPrefix(log.Entries(), m)
  {
    stored := log.AddEntry(m);
    assert HasPrefix(log.Entries()[|log.Entries()| - 1], m);
    ghost var j :| log.nextEntryIndex < j < log.data.Length && old(log.data[..])[j] == NUL;
    assert log.data[..][j] == NUL;
    assert log.Terminated();
    whole := log.ContainsEntry(m);
    start := log.ContainsEntryStartingWith(m);
  }
}
