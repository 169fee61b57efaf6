/**
 * The small shared helpers: the case-insensitive key order of the argument map,
 * sequence equality, command-line parsing and validation, and the upload
 * callback that hands an e-mail to the mail library chunk by chunk.
 */
module Shared {
  import opened Common

  // ---------------------------------------------------------------------------
  // Case-insensitive comparison

  /** `towlower` on the characters the program meets (ASCII letters; every other character is kept). */
  function Lower(c: char): char
  {
    if 'A' <= c <= 'Z' then (c as int + 32) as char else c
  }

  function LowerStr(s: string): (r: string)
    ensures |r| == |s| && forall i :: 0 <= i < |s| ==> r[i] == Lower(s[i])
  {
    if s == [] then [] else [Lower(s[0])] + LowerStr(s[1..])
  }

  /**
   * `PlatformCIComparer`: over the common prefix, the first pair of lowered
   * characters that differ decides; when there is none the answer is false.
   */
  predicate CILess(a: string, b: string)
  {
    if a == [] || b == [] then false
    else if Lower(a[0]) < Lower(b[0]) then true
    else if Lower(b[0]) < Lower(a[0]) then false
    else CILess(a[1..], b[1..])
  }

  /** The comparator's loop, over both strings at once until either ends. */
  method CompareCI(a: string, b: string) returns (less: bool)
    ensures less == CILess(a, b)
  {
    var i := 0;
    while i < |a| && i < |b|
      invariant 0 <= i <= |a| && 0 <= i <= |b|
      invariant CILess(a, b) == CILess(a[i..], b[i..])
      decreases |a| - i
    {
      var aa := Lower(a[i]);
      var bb := Lower(b[i]);
      if aa < bb {
        return true;
      } else if bb < aa {
        return false;
      }
      assert a[i..][1..] == a[i + 1..] && b[i..][1..] == b[i + 1..];
      i := i + 1;
    }
    return false;
  }

  /** The order is irreflexive. */
  lemma {:induction false} CILessIrreflexive(a: string)
    ensures !CILess(a, a)
  {
    if a != [] {
      CILessIrreflexive(a[1..]);
    }
  }

  /** `a` is `b`'s prefix up to case. */
  predicate CIPrefix(a: string, b: string)
  {
    |a| <= |b| && forall i :: 0 <= i < |a| ==> Lower(a[i]) == Lower(b[i])
  }

  /** A string and a longer one that starts with it (up to case) are ordered neither way. */
  lemma {:induction false} CIPrefixUnordered(a: string, b: string)
    requires CIPrefix(a, b)
    ensures !CILess(a, b) && !CILess(b, a)
  {
    if a != [] {
      assert CIPrefix(a[1..], b[1..]) by {
        forall i | 0 <= i < |a| - 1
          ensures Lower(a[1..][i]) == Lower(b[1..][i])
        {
          assert Lower(a[i + 1]) == Lower(b[i + 1]);
        }
      }
      CIPrefixUnordered(a[1..], b[1..]);
    }
  }

  /** The order is transitive, so it is a strict partial order. */
  lemma {:induction false} CILessTransitive(a: string, b: string, c: string)
    requires CILess(a, b) && CILess(b, c)
    ensures CILess(a, c)
  {
    if Lower(a[0]) == Lower(b[0]) && Lower(b[0]) == Lower(c[0]) {
      CILessTransitive(a[1..], b[1..], c[1..]);
    }
  }

  /** Only the lowered characters matter: two spellings that differ in case compare alike with everything. */
  lemma {:induction false} CILessOfLower(a: string, a': string, b: string)
    requires LowerStr(a) == LowerStr(a')
    ensures CILess(a, b) == CILess(a', b) && CILess(b, a) == CILess(b, a')
  {
    assert |a| == |LowerStr(a)| == |a'|;
    if a != [] && b != [] {
      assert Lower(a[0]) == LowerStr(a)[0] == Lower(a'[0]);
      assert LowerStr(a[1..]) == LowerStr(a'[1..]) by {
        assert LowerStr(a[1..]) == LowerStr(a)[1..];
        assert LowerStr(a'[1..]) == LowerStr(a')[1..];
      }
      CILessOfLower(a[1..], a'[1..], b[1..]);
    }
  }

  /**
   * Being unordered is not transitive ("a" against "ab" and against "ac"), so the
   * order is not the strict weak order a `std::map` key order is meant to be.
   */
  lemma UnorderedNotTransitive()
    ensures !CILess("a", "ab") && !CILess("ab", "a")
    ensures !CILess("a", "ac") && !CILess("ac", "a")
    ensures CILess("ab", "ac")
  {
    CIPrefixUnordered("a", "ab");
    CIPrefixUnordered("a", "ac");
    assert CILess("b", "c");
  }

  // ---------------------------------------------------------------------------
  // Equal

  /** `std::equal` over both ranges: same length and the same elements in order. */
  function Equal<T(==)>(a: seq<T>, b: seq<T>): (r: bool)
    ensures r <==> |a| == |b| && forall i :: 0 <= i < |a| ==> a[i] == b[i]
  {
    |a| == |b| && (a == [] || (a[0] == b[0] && Equal(a[1..], b[1..])))
  }

  /** `Equal` is sequence equality. */
  lemma EqualIsEquality<T>(a: seq<T>, b: seq<T>)
    ensures Equal(a, b) <==> a == b
  {
    if Equal(a, b) {
      assert a == b;
    }
  }

  // ---------------------------------------------------------------------------
  // The argument map

  /**
   * The argument map, a `std::map` ordered by `CILess`: its entries in key order.
   * The map finds a key by lower bound (the first entry whose key is not less than
   * it) and then checks that the key is not less than that entry's.
   */
  type Entries = seq<(string, string)>

  predicate Sorted(entries: Entries)
  {
    forall i, j :: 0 <= i < j < |entries| ==> CILess(entries[i].0, entries[j].0)
  }

  /** The first entry whose key is not less than `key`. */
  function LowerBound(entries: Entries, key: string): (i: nat)
    ensures i <= |entries|
    ensures forall j :: 0 <= j < i ==> CILess(entries[j].0, key)
    ensures i < |entries| ==> !CILess(entries[i].0, key)
  {
    if entries == [] || !CILess(entries[0].0, key) then 0
    else 1 + LowerBound(entries[1..], key)
  }

  /** `find`: the entry `key` lands on, if it is not less than the lower bound's key. */
  function Find(entries: Entries, key: string): (r: Option<nat>)
    ensures r.Some? ==> r.value < |entries|
  {
    var i := LowerBound(entries, key);
    if i < |entries| && !CILess(key, entries[i].0) then Some(i) else None
  }

  /** `insert_or_assign`: the new entries and the position of the entry for `key`. */
  function InsertOrAssign(entries: Entries, key: string, value: string): (r: (Entries, nat))
    ensures r.1 < |r.0| && r.0[r.1].1 == value
  {
    var i := LowerBound(entries, key);
    if i < |entries| && !CILess(key, entries[i].0) then (entries[i := (entries[i].0, value)], i)
    else (entries[..i] + [(key, value)] + entries[i..], i)
  }

  /** The entries stay in key order. */
  lemma InsertOrAssignSorted(entries: Entries, key: string, value: string)
    requires Sorted(entries)
    ensures Sorted(InsertOrAssign(entries, key, value).0)
  {
    var i := LowerBound(entries, key);
    if !(i < |entries| && !CILess(key, entries[i].0)) {
      var r := InsertOrAssign(entries, key, value).0;
      forall a, b | 0 <= a < b < |r|
        ensures CILess(r[a].0, r[b].0)
      {
        if b == i {
          assert r[a] == entries[a];
        } else if a == i {
          assert r[b] == entries[b - 1];
          if b - 1 > i {
            CILessTransitive(key, entries[i].0, entries[b - 1].0);
          }
        } else if a < i && b > i {
          assert r[a] == entries[a] && r[b] == entries[b - 1];
        } else if a > i {
          assert r[a] == entries[a - 1] && r[b] == entries[b - 1];
        }
      }
    }
  }

  /** In sorted entries the lower bound of a key splits them: all before are less, none after is. */
  lemma LowerBoundSplits(entries: Entries, key: string, j: nat)
    requires Sorted(entries) && LowerBound(entries, key) <= j < |entries|
    ensures !CILess(entries[j].0, key)
  {
    var i := LowerBound(entries, key);
    if j > i && CILess(entries[j].0, key) {
      CILessTransitive(entries[i].0, entries[j].0, key);
    }
  }

  /** After `insert_or_assign`, `find` of the same key reaches the entry written. */
  lemma InsertThenFind(entries: Entries, key: string, value: string)
    requires Sorted(entries)
    ensures var (r, i) := InsertOrAssign(entries, key, value);
            Find(r, key) == Some(i)
  {
    var i := LowerBound(entries, key);
    var (r, k) := InsertOrAssign(entries, key, value);
    if i < |entries| && !CILess(key, entries[i].0) {
      assert LowerBound(r, key) == i by {
        LowerBoundAt(r, key, i);
      }
    } else {
      CILessIrreflexive(key);
      assert LowerBound(r, key) == i by {
        LowerBoundAt(r, key, i);
      }
    }
  }

  /** The lower bound is the first position whose key is not less. */
  lemma {:induction false} LowerBoundAt(entries: Entries, key: string, i: nat)
    requires i <= |entries|
    requires forall j :: 0 <= j < i ==> CILess(entries[j].0, key)
    requires i < |entries| ==> !CILess(entries[i].0, key)
    ensures LowerBound(entries, key) == i
  {
    if i > 0 {
      assert CILess(entries[0].0, key);
      LowerBoundAt(entries[1..], key, i - 1);
    }
  }

  /** Spellings of a key that differ only in case find the same entry and are inserted at the same place. */
  lemma {:induction false} CaseVariantsAgree(entries: Entries, key: string, key': string)
    requires LowerStr(key) == LowerStr(key')
    ensures LowerBound(entries, key) == LowerBound(entries, key')
    ensures Find(entries, key) == Find(entries, key')
  {
    if entries != [] {
      CILessOfLower(key, key', entries[0].0);
      CaseVariantsAgree(entries[1..], key, key');
      var i := LowerBound(entries, key);
      if i < |entries| {
        CILessOfLower(key, key', entries[i].0);
      }
    }
  }

  // ---------------------------------------------------------------------------
  // ParseArguments

  predicate IsFlag(item: string) { |item| > 0 && (item[0] == '-' || item[0] == '/') }

  /**
   * One item of the argument list: a flag inserts or overwrites its name (the
   * item without its first character) with an empty value and becomes the target;
   * any other non-empty item sets the target's value if there is a target.
   */
  function Step(parsed: Entries, target: Option<nat>, item: string): (r: (Entries, Option<nat>))
    requires target.Some? ==> target.value < |parsed|
    ensures r.1.Some? ==> r.1.value < |r.0|
  {
    if |item| == 0 then (parsed, target)
    else if IsFlag(item) then
      var (p, i) := InsertOrAssign(parsed, item[1..], "");
      (p, Some(i))
    else if target.Some? then (parsed[target.value := (parsed[target.value].0, item)], target)
    else (parsed, target)
  }

  /** The whole argument list, item by item. */
  function Parse(args: seq<string>, parsed: Entries, target: Option<nat>): Entries
    requires target.Some? ==> target.value < |parsed|
  {
    if args == [] then parsed
    else
      var (p, t) := Step(parsed, target, args[0]);
      Parse(args[1..], p, t)
  }

  /** `ParseArguments`: the loop over the items, with the current entry as a position. */
  method ParseArguments(args: seq<string>, parsed0: Entries) returns (parsed: Entries)
    ensures parsed == Parse(args, parsed0, None)
  {
    parsed := parsed0;
    var target: Option<nat> := None;
    var k := 0;
    while k < |args|
      invariant 0 <= k <= |args|
      invariant target.Some? ==> target.value < |parsed|
      invariant Parse(args, parsed0, None) == Parse(args[k..], parsed, target)
    {
      var item := args[k];
      assert args[k..][1..] == args[k + 1..];
      if |item| > 0 {
        if item[0] == '-' || item[0] == '/' {
          var inserted := InsertOrAssign(parsed, item[1..], "");
          parsed, target := inserted.0, Some(inserted.1);
        } else if target.Some? {
          parsed := parsed[target.value := (parsed[target.value].0, item)];
        }
      }
      k := k + 1;
    }
  }

  /** The map stays in key order whatever the arguments. */
  lemma {:induction false} ParseSorted(args: seq<string>, parsed: Entries, target: Option<nat>)
    requires target.Some? ==> target.value < |parsed|
    requires Sorted(parsed)
    ensures Sorted(Parse(args, parsed, target))
  {
    if args != [] {
      var item := args[0];
      if IsFlag(item) {
        InsertOrAssignSorted(parsed, item[1..], "");
      } else if |item| > 0 && target.Some? {
        assert Sorted(parsed[target.value := (parsed[target.value].0, item)]);
      }
      var (p, t) := Step(parsed, target, item);
      ParseSorted(args[1..], p, t);
    }
  }

  /** Empty items change nothing. */
  lemma EmptyItemIgnored(args: seq<string>, parsed: Entries, target: Option<nat>)
    requires target.Some? ==> target.value < |parsed|
    ensures Parse([""] + args, parsed, target) == Parse(args, parsed, target)
  {
    assert ([""] + args)[1..] == args;
  }

  /** Values before the first flag are dropped. */
  lemma LeadingValueIgnored(item: string, args: seq<string>, parsed: Entries)
    requires !IsFlag(item)
    ensures Parse([item] + args, parsed, None) == Parse(args, parsed, None)
  {
    assert ([item] + args)[1..] == args;
  }

  /**
   * A flag followed by a value: `find` of the flag's name gives that value, and a
   * second value overwrites the first.
   */
  lemma FlagValue(key: string, v1: string, v2: string, parsed: Entries)
    requires Sorted(parsed)
    requires |v1| > 0 && !IsFlag(v1) && |v2| > 0 && !IsFlag(v2)
    ensures var r := Parse(["-" + key, v1], parsed, None);
            Find(r, key).Some? && r[Find(r, key).value].1 == v1
    ensures var r := Parse(["-" + key, v1, v2], parsed, None);
            Find(r, key).Some? && r[Find(r, key).value].1 == v2
  {
    var flag := "-" + key;
    assert IsFlag(flag) && flag[1..] == key;
    var (p, i) := InsertOrAssign(parsed, key, "");
    InsertThenFind(parsed, key, "");
    assert Step(parsed, None, flag) == (p, Some(i));
    var p1 := p[i := (p[i].0, v1)];
    var p2 := p1[i := (p1[i].0, v2)];
    LowerBoundAfterValue(p, i, v1, key);
    LowerBoundAfterValue(p1, i, v2, key);
    assert Parse([flag, v1], parsed, None) == p1 by {
      assert [flag, v1][1..] == [v1];
      assert Parse([v1], p, Some(i)) == Parse([], p1, Some(i));
    }
    assert Parse([flag, v1, v2], parsed, None) == p2 by {
      assert [flag, v1, v2][1..] == [v1, v2] && [v1, v2][1..] == [v2];
      assert Parse([v1, v2], p, Some(i)) == Parse([v2], p1, Some(i));
      assert Parse([v2], p1, Some(i)) == Parse([], p2, Some(i));
    }
  }

  /** Setting a value keeps the keys, so every lookup lands where it did. */
  lemma LowerBoundAfterValue(entries: Entries, i: nat, value: string, key: string)
    requires i < |entries|
    ensures LowerBound(entries[i := (entries[i].0, value)], key) == LowerBound(entries, key)
    ensures Find(entries[i := (entries[i].0, value)], key) == Find(entries, key)
  {
    var r := entries[i := (entries[i].0, value)];
    LowerBoundAt(r, key, LowerBound(entries, key));
  }

  /** "-User" and then "-user" address one entry: the second flag overwrites the first one's entry. */
  lemma CaseInsensitiveFlags(key: string, key': string, parsed: Entries)
    requires Sorted(parsed) && LowerStr(key) == LowerStr(key')
    ensures var (p, i) := InsertOrAssign(parsed, key, "");
            InsertOrAssign(p, key', "") == (p, i)
  {
    var (p, i) := InsertOrAssign(parsed, key, "");
    InsertThenFind(parsed, key, "");
    CaseVariantsAgree(p, key, key');
    assert p[i].1 == "";
    assert p[i := (p[i].0, "")] == p;
  }

  // ---------------------------------------------------------------------------
  // ValidateArguments

  /** Every required key is found with a non-empty value. */
  predicate AllPresent(parsed: Entries, required: seq<string>)
  {
    forall k :: 0 <= k < |required| ==>
      Find(parsed, required[k]).Some? && |parsed[Find(parsed, required[k]).value].1| > 0
  }

  /** `ValidateArguments`: the loop over the required keys, failing at the first missing or empty one. */
  method ValidateArguments(parsed: Entries, required: seq<string>) returns (ok: bool)
    ensures ok <==> AllPresent(parsed, required)
  {
    var k := 0;
    while k < |required|
      invariant 0 <= k <= |required|
      invariant AllPresent(parsed, required[..k])
    {
      var find := Find(parsed, required[k]);
      if find.None? {
        return false;
      }
      if |parsed[find.value].1| == 0 {
        return false;
      }
      assert required[..k + 1] == required[..k] + [required[k]];
      k := k + 1;
    }
    assert required[..k] == required;
    return true;
  }

  // ---------------------------------------------------------------------------
  // The upload callback

  const SizeMax: int := 0x1_0000_0000_0000_0000

  /**
   * Bytes one call of the upload callback hands over: none when `size * nmemb`
   * (a `size_t` product, taken modulo 2^64) is zero, else as many of the bytes
   * left as fit.
   */
  function ChunkLength(total: nat, bytesRead: nat, size: nat, nmemb: nat): (n: nat)
    requires bytesRead <= total
    ensures bytesRead + n <= total
    ensures n == 0 <==> size * nmemb % SizeMax == 0 || bytesRead == total
  {
    var room := size * nmemb % SizeMax;
    if size == 0 || nmemb == 0 || room < 1 then 0
    else
      var len := total - bytesRead;
      if len > 0 then (if room < len then room else len) else 0
  }

  /** The upload context: the message and how much of it the mail library has taken. */
  class UploadStatus {
    const data: seq<char>
    var bytesRead: nat

    ghost predicate Valid()
      reads this
    {
      bytesRead <= |data|
    }

    constructor(data: seq<char>)
      ensures this.data == data && bytesRead == 0 && Valid()
    {
      this.data := data;
      bytesRead := 0;
    }

    /** The `CURLOPT_READFUNCTION` callback: copy the next bytes, at most `size * nmemb`, and advance. */
    method Read(size: nat, nmemb: nat) returns (n: nat, copied: seq<char>)
      requires Valid()
      modifies this
      ensures Valid()
      ensures n == ChunkLength(|data|, old(bytesRead), size, nmemb)
      ensures copied == data[old(bytesRead)..old(bytesRead) + n]
      ensures bytesRead == old(bytesRead) + n
    {
      var room := size * nmemb % SizeMax;
      if size == 0 || nmemb == 0 || room < 1 {
        return 0, [];
      }
      var len := |data| - bytesRead;
      if len > 0 {
        if room < len {
          len := room;
        }
        copied := data[bytesRead..bytesRead + len];
        bytesRead := bytesRead + len;
        return len, copied;
      }
      return 0, [];
    }
  }

  /** What a run of callback calls hands over, given their `(size, nmemb)` arguments. */
  function Uploaded(data: seq<char>, bytesRead: nat, calls: seq<(nat, nat)>): seq<char>
    requires bytesRead <= |data|
    decreases |calls|
  {
    if calls == [] then []
    else
      var n := ChunkLength(|data|, bytesRead, calls[0].0, calls[0].1);
      data[bytesRead..bytesRead + n] + Uploaded(data, bytesRead + n, calls[1..])
  }

  /** The calls hand over the message in order, never more than what is left. */
  lemma {:induction false} UploadedInOrder(data: seq<char>, bytesRead: nat, calls: seq<(nat, nat)>)
    requires bytesRead <= |data|
    decreases |calls|
    ensures var sent := Uploaded(data, bytesRead, calls);
            bytesRead + |sent| <= |data| && sent == data[bytesRead..bytesRead + |sent|]
  {
    if calls != [] {
      var n := ChunkLength(|data|, bytesRead, calls[0].0, calls[0].1);
      UploadedInOrder(data, bytesRead + n, calls[1..]);
    }
  }

  /** Calls with room for at least one byte each hand over the whole message in |data| - bytesRead calls at most. */
  lemma {:induction false} UploadedAll(data: seq<char>, bytesRead: nat, calls: seq<(nat, nat)>)
    requires bytesRead <= |data| && |calls| >= |data| - bytesRead
    requires forall k :: 0 <= k < |calls| ==> calls[k].0 * calls[k].1 % SizeMax != 0
    ensures Uploaded(data, bytesRead, calls) == data[bytesRead..]
    decreases |calls|
  {
    if calls != [] {
      var n := ChunkLength(|data|, bytesRead, calls[0].0, calls[0].1);
      if bytesRead == |data| {
        UploadedNothing(data, calls[1..]);
      } else {
        assert n >= 1;
        UploadedAll(data, bytesRead + n, calls[1..]);
        assert data[bytesRead..bytesRead + n] + data[bytesRead + n..] == data[bytesRead..];
      }
    }
  }

  /** Once everything is sent every call returns 0. */
  lemma {:induction false} UploadedNothing(data: seq<char>, calls: seq<(nat, nat)>)
    ensures Uploaded(data, |data|, calls) == []
    decreases |calls|
  {
    if calls != [] {
      UploadedNothing(data, calls[1..]);
    }
  }
}
