/** The unique 8.3 names a directory's entries get, and the search for a free numeric tail. */
module ShortNames {
  import opened Bytes

  /** One UTF-16 code unit; a name is the sequence of its units. */
  type unit = x: int | 0 <= x < 0x1_0000
  type Name = seq<unit>

  const DOT: unit := 0x2E
  const SPACE: unit := 0x20
  const UNDERSCORE: unit := 0x5F
  const TILDE: unit := 0x7E

  /** "*+,./:;<=>?[\]| */
  const BAD_83: set<unit> := {0x22, 0x2A, 0x2B, 0x2C, 0x2E, 0x2F, 0x3A, 0x3B, 0x3C, 0x3D, 0x3E, 0x3F,
                              0x5B, 0x5C, 0x5D, 0x7C}

  /** The 8.3 form of a name: stem and extension, and whether a long name must accompany it. */
  datatype Short = Short(stem: Name, ext: Name, lossy: bool)

  function CleanChar(c: unit): unit
  {
    if c in BAD_83 || c < 0x20 || c > 0x7E || c == SPACE then UNDERSCORE
    else if 0x61 <= c <= 0x7A then c - 32
    else c
  }

  function Clean(s: Name): (r: Name)
    ensures |r| == |s|
  {
    seq(|s|, i requires 0 <= i < |s| => CleanChar(s[i]))
  }

  /** Index of the last dot, or -1. */
  function LastDot(s: Name): (k: int)
    ensures -1 <= k < |s|
    ensures k >= 0 ==> s[k] == DOT
    ensures forall j :: k < j < |s| ==> s[j] != DOT
    decreases |s|
  {
    if s == [] then -1
    else if s[|s| - 1] == DOT then |s| - 1
    else LastDot(s[..|s| - 1])
  }

  function Base(name: Name): Name { if LastDot(name) < 0 then name else name[..LastDot(name)] }

  function Ext(name: Name): Name { if LastDot(name) < 0 then [] else name[LastDot(name) + 1..] }

  /** Slicing s[:k], where a negative k counts from the end. */
  function Prefix(s: Name, k: int): (r: Name)
  {
    var n := if k >= 0 then k else |s| + k;
    if n <= 0 then [] else if n >= |s| then s else s[..n]
  }

  function Decimal(n: nat): (d: Name)
    ensures |d| >= 1 && forall i :: 0 <= i < |d| ==> 0x30 <= d[i] <= 0x39
  {
    if n < 10 then [0x30 + n] else Decimal(n / 10) + [0x30 + n % 10]
  }

  function CleanBase(name: Name): (cb: Name)
    ensures cb != []
  {
    var cb := Clean(Base(name));
    if cb == [] then [UNDERSCORE] else cb
  }

  function CleanExt(name: Name): Name { Prefix(Clean(Ext(name)), 3) }

  /** The 8.3 form would lose something of the name. */
  predicate Lossy(name: Name)
  {
    Clean(Base(name)) != Base(name) || CleanExt(name) != Ext(name) || |Base(name)| > 8 || |Ext(name)| > 3
  }

  function Tailed(cb: Name, n: nat): Name
  {
    var tail := [TILDE] + Decimal(n);
    Prefix(cb, 8 - |tail|) + tail
  }

  /** How a short name is remembered as taken. */
  function Key(stem: Name, ext: Name): Name { stem + [DOT] + ext }

  function TailKey(cb: Name, ce: Name, n: nat): Name { Key(Tailed(cb, n), ce) }

  /** The first n' >= n whose tailed name is free. A key already tried cannot come up again. */
  function FirstFree(cb: Name, ce: Name, taken: set<Name>, n: nat): (r: nat)
    ensures r >= n
    decreases |taken|
  {
    if TailKey(cb, ce, n) !in taken then n
    else FirstFree(cb, ce, taken - {TailKey(cb, ce, n)}, n + 1)
  }

  function Choose(name: Name, taken: set<Name>): (s: Short)
    ensures s.lossy == Lossy(name)
  {
    var cb, ce := CleanBase(name), CleanExt(name);
    var stem := Prefix(cb, 8);
    if Lossy(name) || Key(stem, ce) in taken
    then Short(Tailed(cb, FirstFree(cb, ce, taken, 1)), ce, Lossy(name))
    else Short(stem, ce, Lossy(name))
  }

  function KeyOf(s: Short): Name { Key(s.stem, s.ext) }

  /** The short names of a directory, given in order; each one becomes taken. */
  function ChooseAll(names: seq<Name>, taken: set<Name>): (ss: seq<Short>)
    ensures |ss| == |names|
    decreases |names|
  {
    if names == [] then []
    else
      var s := Choose(names[0], taken);
      [s] + ChooseAll(names[1..], taken + {KeyOf(s)})
  }

  function Pad(s: Name, n: nat): (r: Name)
    ensures |r| == n
  {
    if |s| >= n then s[..n] else s + seq(n - |s|, _ => SPACE)
  }

  /** Encoding to ASCII with '?' for anything else. */
  function Ascii(s: Name): (b: seq<byte>)
    ensures |b| == |s|
    ensures forall i :: 0 <= i < |s| && s[i] < 128 ==> b[i] == s[i]
  {
    seq(|s|, i requires 0 <= i < |s| => if s[i] < 128 then s[i] else 0x3F)
  }

  function Raw(s: Short): (b: seq<byte>)
    ensures |b| == 11
  {
    Ascii(Pad(s.stem, 8) + Pad(s.ext, 3))
  }

  // ------------------------------------------------------------------ distinct tails

  lemma {:induction false} DecimalInjective(n: nat, m: nat)
    requires Decimal(n) == Decimal(m)
    ensures n == m
  {
    var d, e := Decimal(n), Decimal(m);
    if n >= 10 && m >= 10 {
      assert d[..|d| - 1] == Decimal(n / 10) && e[..|e| - 1] == Decimal(m / 10);
      assert d[|d| - 1] == e[|e| - 1];
      DecimalInjective(n / 10, m / 10);
    }
  }

  lemma TailedInjective(cb: Name, n: nat, m: nat)
    requires Tailed(cb, n) == Tailed(cb, m)
    ensures n == m
  {
    var d, e := Decimal(n), Decimal(m);
    var s := Tailed(cb, n);
    TailedEnd(cb, n);
    TailedEnd(cb, m);
    if |d| == |e| {
      DecimalInjective(n, m);
    }
  }

  lemma TailedEnd(cb: Name, n: nat)
    ensures var s := Tailed(cb, n); var d := Decimal(n);
            && |s| > |d| && s[|s| - |d|..] == d && s[|s| - |d| - 1] == TILDE
            && forall k :: |s| - |d| <= k < |s| ==> 0x30 <= s[k] <= 0x39
  {
  }

  lemma TailKeyInjective(cb: Name, ce: Name, n: nat, m: nat)
    requires TailKey(cb, ce, n) == TailKey(cb, ce, m)
    ensures n == m
  {
    var a, b := Tailed(cb, n), Tailed(cb, m);
    assert |a| == |b|;
    assert TailKey(cb, ce, n)[..|a|] == a && TailKey(cb, ce, m)[..|b|] == b;
    TailedInjective(cb, n, m);
  }

  /** The search ends at the first free tail, after at most one more attempt than there are taken names. */
  lemma {:induction false} FirstFreeIsFirst(cb: Name, ce: Name, taken: set<Name>, n: nat)
    ensures var r := FirstFree(cb, ce, taken, n);
            && TailKey(cb, ce, r) !in taken
            && (forall k :: n <= k < r ==> TailKey(cb, ce, k) in taken)
            && r <= n + |taken|
    decreases |taken|
  {
    var key := TailKey(cb, ce, n);
    if key in taken {
      var rest := taken - {key};
      FirstFreeIsFirst(cb, ce, rest, n + 1);
      var r := FirstFree(cb, ce, rest, n + 1);
      if TailKey(cb, ce, r) == key { TailKeyInjective(cb, ce, r, n); }
    }
  }

  // ------------------------------------------------------------------ well-formed short names

  /** A character a stem or an extension may hold: no blank, dot or lower-case letter, nothing the format reserves. */
  predicate Allowed(c: unit) { 0x20 < c <= 0x7E && c !in BAD_83 && !(0x61 <= c <= 0x7A) }

  predicate AllAllowed(s: Name) { forall i :: 0 <= i < |s| ==> Allowed(s[i]) }

  predicate Wellformed(s: Short)
  {
    1 <= |s.stem| <= 8 && |s.ext| <= 3 && AllAllowed(s.stem) && AllAllowed(s.ext)
  }

  /** The most names one directory can be given before a tail outgrows eight characters. */
  const MAX_TAIL: nat := 9_999_999

  lemma {:induction false} DecimalLength(n: nat, digits: nat, bound: nat)
    requires digits >= 1 && bound == Pow10(digits) && n < bound
    ensures |Decimal(n)| <= digits
    decreases digits
  {
    if n >= 10 {
      assert digits >= 2;
      DecimalLength(n / 10, digits - 1, Pow10(digits - 1));
    }
  }

  function Pow10(k: nat): nat { if k == 0 then 1 else 10 * Pow10(k - 1) }

  lemma TailLength(n: nat)
    requires n <= MAX_TAIL
    ensures |Decimal(n)| <= 7
  {
    assert Pow10(7) == 10 * (10 * (10 * (10 * (10 * (10 * (10 * Pow10(0)))))));
    DecimalLength(n, 7, Pow10(7));
  }

  lemma TailedWellformed(cb: Name, n: nat)
    requires n <= MAX_TAIL && AllAllowed(cb)
    ensures 1 <= |Tailed(cb, n)| <= 8 && AllAllowed(Tailed(cb, n))
  {
    TailLength(n);
    forall c: unit | 0x30 <= c <= 0x39 || c == TILDE ensures Allowed(c) {}
  }

  lemma ChooseWellformed(name: Name, taken: set<Name>)
    requires |taken| < MAX_TAIL
    ensures Wellformed(Choose(name, taken))
    ensures KeyOf(Choose(name, taken)) !in taken
  {
    ChooseFree(name, taken);
    ChosenWellformed(name, taken);
  }

  lemma ChooseFree(name: Name, taken: set<Name>)
    ensures KeyOf(Choose(name, taken)) !in taken
  {
    hide Tailed, Key, FirstFree, Lossy, CleanBase, CleanExt, Prefix;
    FirstFreeIsFirst(CleanBase(name), CleanExt(name), taken, 1);
  }

  lemma ChosenWellformed(name: Name, taken: set<Name>)
    requires |taken| < MAX_TAIL
    ensures Wellformed(Choose(name, taken))
  {
    hide Tailed, Key, FirstFree, Lossy, CleanBase, CleanExt, Prefix, AllAllowed, TailKey;
    var cb, ce := CleanBase(name), CleanExt(name);
    PartsAllowed(name);
    FirstFreeIsFirst(cb, ce, taken, 1);
    TailedWellformed(cb, FirstFree(cb, ce, taken, 1));
  }

  lemma PartsAllowed(name: Name)
    ensures AllAllowed(CleanBase(name)) && AllAllowed(CleanExt(name)) && |CleanExt(name)| <= 3
    ensures 1 <= |Prefix(CleanBase(name), 8)| <= 8 && AllAllowed(Prefix(CleanBase(name), 8))
  {
    hide Clean, Base, Ext;
    CleanAllowed(Base(name));
    CleanAllowed(Ext(name));
    assert Allowed(UNDERSCORE);
  }

  lemma CleanAllowed(s: Name)
    ensures AllAllowed(Clean(s))
  {
    forall i | 0 <= i < |s| ensures Allowed(Clean(s)[i]) {
      UpperAllowed(s[i]);
    }
  }

  lemma UpperAllowed(c: unit)
    ensures Allowed(CleanChar(c))
  {
  }

  lemma PadAt(a: Name, n: nat)
    requires |a| <= n && AllAllowed(a)
    ensures forall k :: 0 <= k < n ==> (Pad(a, n)[k] == SPACE <==> k >= |a|)
  {
    forall k | 0 <= k < n ensures Pad(a, n)[k] == SPACE <==> k >= |a| {
      if k < |a| { assert Allowed(a[k]); }
    }
  }

  lemma PadInjective(a: Name, b: Name, n: nat)
    requires |a| <= n && |b| <= n && AllAllowed(a) && AllAllowed(b) && Pad(a, n) == Pad(b, n)
    ensures a == b
  {
    PadAt(a, n);
    PadAt(b, n);
    assert |a| < n ==> Pad(a, n)[|a|] == SPACE;
    assert |b| < n ==> Pad(b, n)[|b|] == SPACE;
    assert Pad(a, n)[..|a|] == a && Pad(b, n)[..|b|] == b;
  }

  lemma RawInjective(s: Short, t: Short)
    requires Wellformed(s) && Wellformed(t) && Raw(s) == Raw(t)
    ensures KeyOf(s) == KeyOf(t)
  {
    var p, q := Pad(s.stem, 8) + Pad(s.ext, 3), Pad(t.stem, 8) + Pad(t.ext, 3);
    forall i | 0 <= i < 11 ensures p[i] == q[i] {
      assert Raw(s)[i] == Raw(t)[i];
    }
    assert p == q;
    assert p[..8] == Pad(s.stem, 8) && q[..8] == Pad(t.stem, 8);
    assert p[8..] == Pad(s.ext, 3) && q[8..] == Pad(t.ext, 3);
    PadInjective(s.stem, t.stem, 8);
    PadInjective(s.ext, t.ext, 3);
  }

  // ------------------------------------------------------------------ a whole directory

  /** Well-formed short names, none with a key in `taken`. */
  predicate AllFresh(ss: seq<Short>, names: seq<Name>, taken: set<Name>)
    requires |ss| == |names|
  {
    forall i :: 0 <= i < |ss| ==>
      Wellformed(ss[i]) && KeyOf(ss[i]) !in taken && ss[i].lossy == Lossy(names[i])
  }

  predicate DistinctKeys(ss: seq<Short>)
  {
    forall i, j :: 0 <= i < j < |ss| ==> KeyOf(ss[i]) != KeyOf(ss[j])
  }

  lemma FreshCons(s: Short, rest: seq<Short>, name: Name, names: seq<Name>, taken: set<Name>)
    requires |rest| == |names| && AllFresh(rest, names, taken + {KeyOf(s)}) && DistinctKeys(rest)
    requires Wellformed(s) && KeyOf(s) !in taken && s.lossy == Lossy(name)
    ensures AllFresh([s] + rest, [name] + names, taken) && DistinctKeys([s] + rest)
  {
    hide Wellformed, KeyOf, Lossy;
    var ss := [s] + rest;
    forall i, j | 0 <= i < j < |ss| ensures KeyOf(ss[i]) != KeyOf(ss[j]) {
      assert ss[j] == rest[j - 1];
      if i > 0 { assert ss[i] == rest[i - 1]; }
    }
  }

  lemma NoneFresh(taken: set<Name>)
    ensures AllFresh([], [], taken) && DistinctKeys([])
  {
  }

  lemma {:induction false} ChooseAllFresh(names: seq<Name>, taken: set<Name>)
    requires |taken| + |names| <= MAX_TAIL
    ensures AllFresh(ChooseAll(names, taken), names, taken) && DistinctKeys(ChooseAll(names, taken))
    decreases |names|
  {
    hide Choose, Wellformed, KeyOf, Lossy, AllFresh, DistinctKeys;
    if names == [] {
      NoneFresh(taken);
    } else {
      ChooseWellformed(names[0], taken);
      var s := Choose(names[0], taken);
      ChooseAllFresh(names[1..], taken + {KeyOf(s)});
      FreshCons(s, ChooseAll(names[1..], taken + {KeyOf(s)}), names[0], names[1..], taken);
      assert [names[0]] + names[1..] == names;
    }
  }

  lemma RawFirst(s: Short)
    requires Wellformed(s)
    ensures Raw(s)[0] == s.stem[0] && Allowed(s.stem[0])
    ensures Raw(s)[0] != 0 && Raw(s)[0] != DOT && Raw(s)[0] != 0xE5
    ensures SPACE !in s.stem && SPACE !in s.ext
  {
    assert (Pad(s.stem, 8) + Pad(s.ext, 3))[0] == s.stem[0];
    assert Allowed(s.stem[0]);
    assert !Allowed(SPACE) && !Allowed(DOT);
  }

  /** The 11-byte names of one directory are distinct and never look like a free, deleted or dot entry. */
  lemma ShortNamesDistinct(names: seq<Name>)
    requires |names| <= MAX_TAIL
    ensures var ss := ChooseAll(names, {});
            && (forall i, j :: 0 <= i < j < |ss| ==> Raw(ss[i]) != Raw(ss[j]))
            && (forall i :: 0 <= i < |ss| ==>
                  && SPACE !in ss[i].stem && SPACE !in ss[i].ext
                  && Raw(ss[i])[0] != 0 && Raw(ss[i])[0] != DOT && Raw(ss[i])[0] != 0xE5)
  {
    ChooseAllFresh(names, {});
    var ss := ChooseAll(names, {});
    forall i, j | 0 <= i < j < |ss| ensures Raw(ss[i]) != Raw(ss[j]) {
      assert Wellformed(ss[i]) && Wellformed(ss[j]) && KeyOf(ss[i]) != KeyOf(ss[j]);
      if Raw(ss[i]) == Raw(ss[j]) { RawInjective(ss[i], ss[j]); }
    }
    forall i | 0 <= i < |ss|
      ensures SPACE !in ss[i].stem && SPACE !in ss[i].ext
      ensures Raw(ss[i])[0] != 0 && Raw(ss[i])[0] != DOT && Raw(ss[i])[0] != 0xE5
    {
      RawFirst(ss[i]);
    }
  }

  /**
   * A name that would lose nothing gets no long-name entry, and yet it is stored under another name exactly when
   * it has nothing before its last dot or when its key is taken.
   */
  lemma RenamedSilently(name: Name, taken: set<Name>)
    requires |taken| < MAX_TAIL && !Lossy(name)
    ensures !Choose(name, taken).lossy
    ensures KeyOf(Choose(name, taken)) != Key(Base(name), Ext(name)) <==>
              Base(name) == [] || Key(Base(name), Ext(name)) in taken
  {
    ChooseWellformed(name, taken);
    if Base(name) == [] {
      KeyStart(Choose(name, taken), Ext(name));
    } else {
      assert Prefix(CleanBase(name), 8) == Base(name);
    }
  }

  lemma KeyStart(s: Short, ext: Name)
    requires Wellformed(s)
    ensures KeyOf(s) != Key([], ext)
  {
    assert Allowed(s.stem[0]);
    assert KeyOf(s)[0] == s.stem[0] && Key([], ext)[0] == DOT;
  }

  /** ".TXT" is stored as "_.TXT" although nothing is taken. */
  lemma RenamedEmptyBase()
    ensures var name: Name := [DOT, 0x54, 0x58, 0x54];
            !Lossy(name) && Choose(name, {}) == Short([UNDERSCORE], [0x54, 0x58, 0x54], false)
  {
    var name: Name := [DOT, 0x54, 0x58, 0x54];
    assert name[0] == DOT && name[1] != DOT && name[2] != DOT && name[3] != DOT;
    assert LastDot(name) == 0;
    assert Base(name) == [] && Ext(name) == [0x54, 0x58, 0x54];
    assert Clean(Base(name)) == [] && Clean(Ext(name)) == Ext(name);
  }

  /** "A", where the key of "A" is taken, is stored as "A~1". */
  lemma RenamedTaken()
    ensures var name: Name := [0x41];
            !Lossy(name) && Choose(name, {[0x41, DOT]}) == Short([0x41, TILDE, 0x31], [], false)
  {
    var name: Name := [0x41];
    assert LastDot(name) == -1;
    assert Base(name) == name && Ext(name) == [] && Clean(name) == name && Clean([]) == [];
    assert Key([0x41], []) == [0x41, DOT];
    assert Decimal(1) == [0x31];
    var tail := [TILDE] + Decimal(1);
    assert tail == [TILDE, 0x31] && Prefix(name, 8 - |tail|) == name;
    assert Tailed(name, 1) == name + tail == [0x41, TILDE, 0x31];
    var taken := {Key([0x41], [])};
    assert TailKey(name, [], 1)[1] == TILDE && Key([0x41], [])[1] == DOT;
    assert FirstFree(name, [], taken, 1) == 1;
  }

  // ------------------------------------------------------------------ what becomes of a name

  /** A name is what stands before its last dot, that dot, and what stands behind it; or it has no dot. */
  lemma NameSplits(name: Name)
    ensures DOT !in Ext(name)
    ensures if DOT in name then name == Base(name) + [DOT] + Ext(name) else Base(name) == name && Ext(name) == []
  {
    hide LastDot;
    var k := LastDot(name);
    if k >= 0 {
      assert name[k] == DOT;
      SplitAt(name, k);
    }
  }

  lemma SplitAt(s: Name, k: nat)
    requires k < |s|
    ensures s == s[..k] + [s[k]] + s[k + 1..]
  {
  }

  /** Allowed characters are kept, letters become upper-case, whatever their case, and all others underscores. */
  lemma CharacterKept(c: unit)
    ensures CleanChar(c) == c <==> Allowed(c)
    ensures 0x41 <= c <= 0x5A ==> CleanChar(c + 32) == CleanChar(c)
    ensures CleanChar(c) != c && !(0x61 <= c <= 0x7A) ==> CleanChar(c) == UNDERSCORE
  {
  }

  lemma CleanIs(s: Name)
    ensures Clean(s) == s <==> AllAllowed(s)
  {
    if Clean(s) == s {
      forall i | 0 <= i < |s| ensures Allowed(s[i]) { assert Clean(s)[i] == s[i]; CharacterKept(s[i]); }
    }
    if AllAllowed(s) {
      forall i | 0 <= i < |s| ensures Clean(s)[i] == s[i] { CharacterKept(s[i]); }
    }
  }

  /** A name loses nothing exactly when both parts fit and consist of allowed characters. */
  lemma LossyExactly(name: Name)
    ensures Lossy(name) <==>
              !(|Base(name)| <= 8 && |Ext(name)| <= 3 && AllAllowed(Base(name)) && AllAllowed(Ext(name)))
  {
    hide Base, Ext, Clean, AllAllowed;
    CleanIs(Base(name));
    CleanIs(Ext(name));
  }

  /** The number decimal digits stand for. */
  function Value(d: Name): int { if d == [] then 0 else 10 * Value(d[..|d| - 1]) + d[|d| - 1] - 0x30 }

  lemma {:induction false} DecimalIs(n: nat)
    ensures Value(Decimal(n)) == n && (n > 0 ==> Decimal(n)[0] != 0x30)
  {
    var d := Decimal(n);
    if n < 10 {
      assert d[..0] == [];
    } else {
      DecimalIs(n / 10);
      assert d[..|d| - 1] == Decimal(n / 10);
    }
  }

  /** A tailed name: as much of the beginning as there is room for, a tilde, and the number. */
  lemma TailedIs(cb: Name, n: nat)
    requires n <= MAX_TAIL
    ensures var room := 7 - |Decimal(n)|;
            room >= 0 && Tailed(cb, n) == (if |cb| <= room then cb else cb[..room]) + [TILDE] + Decimal(n)
  {
    TailLength(n);
  }

  /** "a.txt", with nothing taken, is stored as "A~1     TXT", and asks for a long name. */
  lemma LowerCaseExample()
    ensures var name: Name := [0x61, DOT, 0x74, 0x78, 0x74];
            && Choose(name, {}) == Short([0x41, TILDE, 0x31], [0x54, 0x58, 0x54], true)
            && Raw(Choose(name, {})) == [0x41, 0x7E, 0x31, 0x20, 0x20, 0x20, 0x20, 0x20, 0x54, 0x58, 0x54]
  {
    var name: Name := [0x61, DOT, 0x74, 0x78, 0x74];
    assert name[1] == DOT && name[2] != DOT && name[3] != DOT && name[4] != DOT;
    assert LastDot(name) == 1;
    assert Base(name) == [0x61] && Ext(name) == [0x74, 0x78, 0x74];
    assert Clean(Base(name)) == [0x41] && Clean(Ext(name)) == [0x54, 0x58, 0x54];
    assert Clean(Base(name))[0] != Base(name)[0];
    assert Decimal(1) == [0x31] && [TILDE] + Decimal(1) == [TILDE, 0x31];
    assert Tailed([0x41], 1) == [0x41, TILDE, 0x31];
    RawExample();
  }

  lemma RawExample()
    ensures Raw(Short([0x41, TILDE, 0x31], [0x54, 0x58, 0x54], true))
         == [0x41, 0x7E, 0x31, 0x20, 0x20, 0x20, 0x20, 0x20, 0x54, 0x58, 0x54]
  {
    var s := Short([0x41, TILDE, 0x31], [0x54, 0x58, 0x54], true);
    assert Pad(s.stem, 8) == [0x41, TILDE, 0x31, SPACE, SPACE, SPACE, SPACE, SPACE];
    assert Pad(s.ext, 3) == [0x54, 0x58, 0x54];
  }

  // ------------------------------------------------------------------ the loop of the program

  method ShortName(name: Name, taken: set<Name>) returns (raw11: seq<byte>, lossy: bool, taken': set<Name>)
    ensures raw11 == Raw(Choose(name, taken))
    ensures lossy == Lossy(name)
    ensures taken' == taken + {KeyOf(Choose(name, taken))}
  {
    var base, ext := Base(name), Ext(name);
    var cb, ce := Clean(base), Prefix(Clean(ext), 3);
    lossy := cb != base || ce != ext || |base| > 8 || |ext| > 3;
    if cb == [] { cb := [UNDERSCORE]; }
    var stem := Prefix(cb, 8);
    if lossy || Key(stem, ce) in taken {
      var n := 1;
      FirstFreeIsFirst(cb, ce, taken, 1);
      stem := Tailed(cb, n);
      while Key(stem, ce) in taken
        invariant 1 <= n <= FirstFree(cb, ce, taken, 1)
        invariant stem == Tailed(cb, n)
        invariant forall k :: 1 <= k < n ==> TailKey(cb, ce, k) in taken
        decreases FirstFree(cb, ce, taken, 1) - n
      {
        assert TailKey(cb, ce, n) in taken;
        n := n + 1;
        stem := Tailed(cb, n);
      }
      assert TailKey(cb, ce, n) == Key(stem, ce);
      assert n == FirstFree(cb, ce, taken, 1);
    }
    assert Choose(name, taken) == Short(stem, ce, lossy);
    taken' := taken + {Key(stem, ce)};
    raw11 := Ascii(Pad(stem, 8) + Pad(ce, 3));
  }
}
