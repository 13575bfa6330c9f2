/**
 The constant pool of a module: NUL-terminated strings laid end to end, an
 index of where each starts, and the hash table that interns strings while
 compiling (EjsConstants in src/ejs.h, src/vm/ejsModule.c and
 ecAddModuleConstant in src/compiler/ecModuleWrite.c).
 */
module ConstantPool {
  import opened Bytes

  type CString = s: seq<byte> | 0 !in s

  const POOL_INCR: nat := 4096  // EC_BUFSIZE
  const INDEX_INCR: nat := 256  // EJS_INDEX_INCR
  const CANT_WRITE: int := -23  // MPR_ERR_CANT_WRITE

  // --------------------------------------------- Pools as lists of strings

  /** The bytes of a pool holding `strs` in order. */
  function Flatten(strs: seq<CString>): seq<byte> {
    if strs == [] then [] else Flatten(strs[..|strs| - 1]) + strs[|strs| - 1] + [0]
  }

  function Offset(strs: seq<CString>, i: nat): nat
    requires i <= |strs|
  {
    |Flatten(strs[..i])|
  }

  ghost predicate Distinct(strs: seq<CString>) {
    forall i, j :: 0 <= i < j < |strs| ==> strs[i] != strs[j]
  }

  function IndexOf(strs: seq<CString>, s: CString): (i: nat)
    requires s in strs
    ensures i < |strs| && strs[i] == s
  {
    if strs[0] == s then 0 else 1 + IndexOf(strs[1..], s)
  }

  /** The pool after interning s: appended unless it is there already. */
  function Intern(strs: seq<CString>, s: CString): seq<CString> {
    if s in strs then strs else strs + [s]
  }

  function InternAll(strs: seq<CString>, more: seq<CString>): seq<CString>
    decreases |more|
  {
    if more == [] then strs else InternAll(Intern(strs, more[0]), more[1..])
  }

  /** strlen of the C string at `pos`. */
  function StrLen(s: seq<byte>, pos: nat): (n: nat)
    requires pos <= |s|
    ensures pos + n <= |s|
    decreases |s| - pos
  {
    if pos == |s| || s[pos] == 0 then 0 else 1 + StrLen(s, pos + 1)
  }

  lemma {:induction false} StrLenAt(s: seq<byte>, pos: nat, str: CString)
    requires At(s, pos, str + [0])
    ensures StrLen(s, pos) == |str|
    decreases |str|
  {
    AtIndex(s, pos, str + [0], 0);
    if |str| > 0 {
      assert str + [0] == [str[0]] + (str[1..] + [0]);
      AtConcat(s, pos, [str[0]], str[1..] + [0]);
      StrLenAt(s, pos + 1, str[1..]);
    }
  }

  /** The C string at `pos`. */
  function StringAt(s: seq<byte>, pos: nat): seq<byte>
    requires pos <= |s|
  {
    s[pos..pos + StrLen(s, pos)]
  }

  lemma {:induction false} StringAtOffset(strs: seq<CString>, i: nat)
    requires i < |strs|
    ensures At(Flatten(strs), Offset(strs, i), strs[i] + [0])
    ensures Offset(strs, i + 1) == Offset(strs, i) + |strs[i]| + 1 <= |Flatten(strs)|
    decreases |strs|
  {
    var last := |strs| - 1;
    assert strs[..i + 1][..i] == strs[..i];
    if i < last {
      StringAtOffset(strs[..last], i);
      assert strs[..last][..i] == strs[..i] && strs[..last][..i + 1] == strs[..i + 1];
      AtPrefix(Flatten(strs[..last]), strs[last] + [0], Offset(strs, i), strs[i] + [0]);
      assert Flatten(strs) == Flatten(strs[..last]) + (strs[last] + [0]);
    } else {
      assert strs[..i + 1] == strs;
      assert Flatten(strs) == Flatten(strs[..i]) + (strs[i] + [0]);
    }
  }

  lemma FlattenAppend(strs: seq<CString>, s: CString)
    ensures Flatten(strs + [s]) == Flatten(strs) + (s + [0])
    ensures Offset(strs + [s], |strs|) == |Flatten(strs)|
    ensures forall i :: 0 <= i <= |strs| ==> Offset(strs + [s], i) == Offset(strs, i)
  {
    assert (strs + [s])[..|strs|] == strs;
    forall i | 0 <= i <= |strs| ensures Offset(strs + [s], i) == Offset(strs, i) {
      assert (strs + [s])[..i] == strs[..i];
    }
  }

  lemma AtPrefix(a: seq<byte>, b: seq<byte>, pos: nat, e: seq<byte>)
    requires At(a, pos, e)
    ensures At(a + b, pos, e)
  {
    assert (a + b)[pos..pos + |e|] == a[pos..pos + |e|];
  }

  // --------------------------------------------------- Interning, over runs

  lemma InternKeeps(strs: seq<CString>, s: CString)
    requires Distinct(strs)
    ensures Distinct(Intern(strs, s)) && strs <= Intern(strs, s)
    ensures forall x :: x in Intern(strs, s) <==> x in strs || x == s
  {
  }

  /**
   Over any run of additions strings stay distinct, indices never change, every
   added string is present, and nothing else appears.
   */
  lemma {:induction false} InternAllKeeps(strs: seq<CString>, more: seq<CString>)
    requires Distinct(strs)
    ensures Distinct(InternAll(strs, more)) && strs <= InternAll(strs, more)
    ensures forall s :: s in InternAll(strs, more) <==> s in strs || s in more
    decreases |more|
  {
    hide Distinct, Intern;
    if more != [] {
      InternKeeps(strs, more[0]);
      InternAllKeeps(Intern(strs, more[0]), more[1..]);
      assert more == [more[0]] + more[1..];
    }
  }

  /** Adding strings that are all present leaves the pool unchanged. */
  lemma {:induction false} InternAllPresent(strs: seq<CString>, more: seq<CString>)
    ensures (forall s :: s in more ==> s in strs) <==> InternAll(strs, more) == strs
    decreases |more|
  {
    if more != [] {
      InternAllPresent(Intern(strs, more[0]), more[1..]);
      assert more == [more[0]] + more[1..];
      InternAllGrows(Intern(strs, more[0]), more[1..]);
    }
  }

  lemma {:induction false} InternAllGrows(strs: seq<CString>, more: seq<CString>)
    ensures strs <= InternAll(strs, more)
    decreases |more|
  {
    if more != [] {
      InternAllGrows(Intern(strs, more[0]), more[1..]);
    }
  }

  lemma {:induction false} InternAllConcat(strs: seq<CString>, a: seq<CString>, b: seq<CString>)
    ensures InternAll(strs, a + b) == InternAll(InternAll(strs, a), b)
    decreases |a|
  {
    if a == [] {
      assert a + b == b;
    } else {
      assert (a + b)[1..] == a[1..] + b;
      InternAllConcat(Intern(strs, a[0]), a[1..], b);
    }
  }

  lemma {:induction false} IndexStable(strs: seq<CString>, longer: seq<CString>, s: CString)
    requires strs <= longer && s in strs
    ensures IndexOf(longer, s) == IndexOf(strs, s)
    decreases |strs|
  {
    if strs[0] != s {
      IndexStable(strs[1..], longer[1..], s);
    }
  }

  // ------------------------------------------------------ The pool in memory

  /** An index slot: a tagged pool offset, or the interned string once it was asked for. */
  datatype Slot = Tagged(offset: nat) | Interned(str: CString)

  /** The hash table and the pool agree: each string under its own index, failed additions negative. */
  ghost predicate Agreement(strs: seq<CString>, table: map<CString, int>, locked: bool) {
    && (forall i :: 0 <= i < |strs| ==> strs[i] in table && table[strs[i]] == i)
    && (forall s :: s in table && table[s] >= 0 ==> table[s] < |strs| && strs[table[s]] == s)
    && (!locked ==> forall s :: s in table ==> table[s] >= 0)
  }

  lemma AgreementIsInterning(strs: seq<CString>, table: map<CString, int>, locked: bool)
    requires Agreement(strs, table, locked)
    ensures Distinct(strs)
    ensures forall s :: s in strs <==> s in table && table[s] >= 0
    ensures forall s :: s in strs ==> table[s] == IndexOf(strs, s)
    ensures !locked ==> forall s :: s in table ==> s in strs
  {
    forall i, j | 0 <= i < j < |strs| ensures strs[i] != strs[j] {
      assert table[strs[i]] == i && table[strs[j]] == j;
    }
  }

  /** A new string keeps the agreement, at the end of an open pool or refused by a locked one. */
  lemma AgreementAdd(strs: seq<CString>, table: map<CString, int>, locked: bool, s: CString)
    requires Agreement(strs, table, locked) && s !in table
    ensures locked ==> Agreement(strs, table[s := CANT_WRITE], locked)
    ensures !locked ==> Agreement(strs + [s], table[s := |strs|], locked)
  {
  }

  class EjsConstants {
    var pool: array<byte>
    var poolLength: nat
    var index: array<Slot>
    var indexCount: nat
    var locked: bool
    var table: map<CString, int>
    ghost var strs: seq<CString>

    /** The pool bytes and the index describe the list `strs`. */
    ghost predicate Valid()
      reads this, pool, index
    {
      && poolLength <= pool.Length && pool[..poolLength] == Flatten(strs)
      && indexCount == |strs| <= index.Length
      && forall i :: 0 <= i < |strs| ==> index[i] == Tagged(Offset(strs, i)) || index[i] == Interned(strs[i])
    }

    ghost predicate Agrees()
      reads this`strs, this`table, this`locked
    {
      Agreement(strs, table, locked)
    }

    /** ejsCreateConstants for a module being compiled: an empty pool with room. */
    constructor ()
      ensures Valid() && Agrees() && strs == [] && !locked && table == map[]
      ensures fresh(pool) && fresh(index)
    {
      pool := new byte[POOL_INCR];
      poolLength := 0;
      index := new Slot[0];
      indexCount := 0;
      locked := false;
      table := map[];
      strs := [];
    }

    /** ejsGrowConstants: room for `len` more pool bytes and one more index slot. */
    method GrowConstants(len: nat)
      requires Valid() && len > 0
      modifies this`pool, this`index
      ensures Valid()
      ensures poolLength + len <= pool.Length && indexCount < index.Length
      ensures pool == old(pool) || fresh(pool)
      ensures index == old(index) || fresh(index)
    {
      if poolLength + len >= pool.Length {
        var grown := new byte[(pool.Length + len + POOL_INCR - 1) / POOL_INCR * POOL_INCR];
        forall i | 0 <= i < poolLength {
          grown[i] := pool[i];
        }
        assert grown[..poolLength] == pool[..poolLength];
        pool := grown;
      }
      if indexCount >= index.Length {
        var slots := new Slot[(indexCount + INDEX_INCR) / INDEX_INCR * INDEX_INCR];
        forall i | 0 <= i < indexCount {
          slots[i] := index[i];
        }
        index := slots;
      }
    }

    /** The memcpy of ejsAddConstant: str and its NUL after the used bytes. */
    method CopyString(str: CString)
      requires poolLength + |str| + 1 <= pool.Length
      modifies pool
      ensures pool[..poolLength] == old(pool[..poolLength])
      ensures pool[..poolLength + |str| + 1] == pool[..poolLength] + (str + [0])
    {
      forall i | 0 <= i < |str| + 1 {
        pool[poolLength + i] := (str + [0])[i];
      }
    }

    /** ejsAddConstant: append without looking the string up; refused once locked. */
    method AddConstant(str: CString) returns (r: int)
      requires Valid()
      modifies this, if locked then {} else {pool, index}
      ensures Valid() && locked == old(locked)
      ensures old(locked) ==> r == CANT_WRITE && strs == old(strs) && table == old(table)
      ensures !old(locked) ==> r == |old(strs)| && strs == old(strs) + [str] && table == old(table)[str := r]
      ensures pool == old(pool) || fresh(pool)
      ensures index == old(index) || fresh(index)
    {
      hide Flatten, Offset;
      if locked {
        return CANT_WRITE;
      }
      GrowConstants(|str| + 1);
      CopyString(str);
      FlattenAppend(strs, str);
      index[indexCount] := Tagged(poolLength);
      poolLength := poolLength + |str| + 1;
      table := table[str := indexCount];
      r := indexCount;
      indexCount := indexCount + 1;
      strs := strs + [str];
    }

    /**
     ecAddModuleConstant: look up, else append and remember the result, whatever
     it is. After the pool is locked a new string is refused and the table keeps
     the negative result for it; the pool itself never changes.
     */
    method AddModuleConstant(str: CString) returns (r: int)
      requires Valid() && Agrees()
      modifies this, if locked then {} else {pool, index}
      ensures Valid() && Agrees() && locked == old(locked)
      ensures str in old(table) ==> r == old(table)[str] && table == old(table)
      ensures strs == if old(locked) then old(strs) else Intern(old(strs), str)
      ensures r >= 0 <==> str in strs
      ensures r >= 0 ==> r == IndexOf(strs, str) && r < |strs| && strs[r] == str
      ensures forall s :: s in old(table) ==> s in table && table[s] == old(table)[s]
      ensures pool == old(pool) || fresh(pool)
      ensures index == old(index) || fresh(index)
    {
      hide Flatten, Offset, Distinct, IndexOf, Agreement;
      AgreementIsInterning(strs, table, locked);
      if str in table {
        r := table[str];
      } else {
        AgreementAdd(strs, table, locked, str);
        r := AddConstant(str);
        table := table[str := r];
        assert table == old(table)[str := r];
        AgreementIsInterning(strs, table, locked);
      }
    }

    /** ejsCreateStringFromConst: the string of an index slot, interned on first use. */
    method GetString(i: int) returns (r: Option<CString>)
      requires Valid()
      modifies index
      ensures Valid()
      ensures r == if 0 <= i < |strs| then Some(strs[i]) else None
    {
      if i < 0 || i >= indexCount {
        return None;
      }
      match index[i] {
        case Interned(str) =>
          r := Some(str);
        case Tagged(offset) =>
          StringAtOffset(strs, i);
          StrLenAt(pool[..poolLength], offset, strs[i]);
          AtConcat(pool[..poolLength], offset, strs[i], [0]);
          var str: CString := StringAt(pool[..poolLength], offset);
          index[i] := Interned(str);
          r := Some(str);
      }
    }
  }

  // ------------------------------------------------------- Reading a pool back

  /** The offsets the walk over a pool of `size` bytes visits. */
  function Walk(pool: seq<byte>, pos: nat): seq<nat>
    decreases |pool| - pos
  {
    if pos >= |pool| then [] else [pos] + Walk(pool, pos + StrLen(pool, pos) + 1)
  }

  /** The loop of ejsCreateConstants and of lstEndModule: step from NUL to NUL. */
  method WalkPool(pool: seq<byte>) returns (offsets: seq<nat>)
    ensures offsets == Walk(pool, 0)
  {
    offsets := [];
    var pp := 0;
    while pp < |pool|
      invariant offsets + Walk(pool, pp) == Walk(pool, 0)
      decreases |pool| - pp
    {
      offsets := offsets + [pp];
      pp := pp + StrLen(pool, pp) + 1;
    }
  }

  /** The strings the walk finds, in order. */
  function PoolStrings(pool: seq<byte>, pos: nat): seq<CString>
    decreases |pool| - pos
  {
    if pos >= |pool| then []
    else
      StringAtNoNul(pool, pos);
      [StringAt(pool, pos)] + PoolStrings(pool, pos + StrLen(pool, pos) + 1)
  }

  lemma {:induction false} StringAtNoNul(s: seq<byte>, pos: nat)
    requires pos <= |s|
    ensures 0 !in StringAt(s, pos)
    decreases |s| - pos
  {
    if pos < |s| && s[pos] != 0 {
      StringAtNoNul(s, pos + 1);
      assert StringAt(s, pos) == [s[pos]] + StringAt(s, pos + 1);
    }
  }

  lemma StringAtEntry(strs: seq<CString>, i: nat)
    requires i < |strs|
    ensures Offset(strs, i) < |Flatten(strs)| && StringAt(Flatten(strs), Offset(strs, i)) == strs[i]
    ensures Offset(strs, i) + StrLen(Flatten(strs), Offset(strs, i)) + 1 == Offset(strs, i + 1)
  {
    hide Flatten;
    StringAtOffset(strs, i);
    StrLenAt(Flatten(strs), Offset(strs, i), strs[i]);
    AtConcat(Flatten(strs), Offset(strs, i), strs[i], [0]);
  }

  lemma PoolStringsStep(pool: seq<byte>, pos: nat)
    requires pos < |pool|
    ensures PoolStrings(pool, pos) == [StringAt(pool, pos)] + PoolStrings(pool, pos + StrLen(pool, pos) + 1)
  {
  }

  lemma PoolStringsEnd(strs: seq<CString>)
    ensures Offset(strs, |strs|) == |Flatten(strs)| && PoolStrings(Flatten(strs), |Flatten(strs)|) == []
  {
    assert strs[..|strs|] == strs;
  }

  lemma {:induction false} PoolStringsFrom(strs: seq<CString>, i: nat)
    requires i <= |strs|
    ensures PoolStrings(Flatten(strs), Offset(strs, i)) == strs[i..]
    decreases |strs| - i
  {
    hide Flatten, Offset, StrLen, StringAt, PoolStrings;
    if i == |strs| {
      PoolStringsEnd(strs);
      assert strs[i..] == [];
    } else {
      StringAtEntry(strs, i);
      PoolStringsStep(Flatten(strs), Offset(strs, i));
      PoolStringsFrom(strs, i + 1);
      assert strs[i..] == [strs[i]] + strs[i + 1..];
    }
  }

  /** Walking a written pool yields its strings, constant i as the i-th, and no others. */
  lemma PoolStringsInverts(strs: seq<CString>)
    ensures PoolStrings(Flatten(strs), 0) == strs
  {
    PoolStringsFrom(strs, 0);
  }

  /** The walk of the listing and of the loader visits one offset a string. */
  lemma {:induction false} WalkCounts(pool: seq<byte>, pos: nat)
    ensures |Walk(pool, pos)| == |PoolStrings(pool, pos)|
    ensures forall i :: 0 <= i < |Walk(pool, pos)| ==>
              Walk(pool, pos)[i] < |pool| && PoolStrings(pool, pos)[i] == StringAt(pool, Walk(pool, pos)[i])
    decreases |pool| - pos
  {
    if pos < |pool| {
      WalkCounts(pool, pos + StrLen(pool, pos) + 1);
    }
  }

  lemma {:induction false} PoolLength(strs: seq<CString>)
    ensures |strs| <= |Flatten(strs)|
    decreases |strs|
  {
    if strs != [] {
      PoolLength(strs[..|strs| - 1]);
    }
  }
}
