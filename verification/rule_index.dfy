/** The two lookup tables built at startup: texture rules grouped by the texture
    they replace (BionicIcons.cs lines 25-36), and icon rules, sorted, spread
    over the body parts they name (lines 38-60). Each table is defined as the
    fold the startup loop performs, and related by lemmas to an independent
    description of every bucket. */
module RuleIndex {
  import opened Defs
  import opened Strings

  /** The list stored under `k`, or the empty list when there is no entry. */
  function Get<K, V>(m: map<K, seq<V>>, k: K): seq<V>
  {
    if k in m then m[k] else []
  }

  // ---------------------------------------------------------------------------
  // Texture index

  /** One step of the texture loop: append `def` to the list of its texture,
      creating the entry when it is missing. */
  function AddTexture(idx: map<string, seq<TextureRule>>, def: TextureRule): map<string, seq<TextureRule>>
  {
    idx[def.texture := Get(idx, def.texture) + [def]]
  }

  /** The texture loop run over `defs`, starting from `acc`. */
  function TextureIndexFrom(acc: map<string, seq<TextureRule>>, defs: seq<TextureRule>): map<string, seq<TextureRule>>
    decreases |defs|
  {
    if defs == [] then acc
    else AddTexture(TextureIndexFrom(acc, defs[..|defs| - 1]), defs[|defs| - 1])
  }

  /** The texture index as startup builds it from an empty dictionary. */
  function TextureIndex(defs: seq<TextureRule>): map<string, seq<TextureRule>>
  {
    TextureIndexFrom(map[], defs)
  }

  /** The rules of `defs` that replace texture `k`, in declaration order. */
  function WithTexture(defs: seq<TextureRule>, k: string): (r: seq<TextureRule>)
    ensures forall x :: x in r <==> x in defs && x.texture == k
    decreases |defs|
  {
    if defs == [] then []
    else
      var last := defs[|defs| - 1];
      assert defs == defs[..|defs| - 1] + [last];
      WithTexture(defs[..|defs| - 1], k) + (if last.texture == k then [last] else [])
  }

  lemma {:induction false} TextureIndexGroups(acc: map<string, seq<TextureRule>>, defs: seq<TextureRule>, k: string)
    ensures Get(TextureIndexFrom(acc, defs), k) == Get(acc, k) + WithTexture(defs, k)
    ensures k in TextureIndexFrom(acc, defs) <==> k in acc || WithTexture(defs, k) != []
    decreases |defs|
  {
    if defs != [] {
      TextureIndexGroups(acc, defs[..|defs| - 1], k);
    }
  }

  /** The texture index maps exactly the textures some rule replaces, each to
      the rules replacing it in declaration order; no entry is empty. */
  lemma TextureIndexSpec(defs: seq<TextureRule>)
    ensures forall k :: k in TextureIndex(defs) <==> exists i :: 0 <= i < |defs| && defs[i].texture == k
    ensures forall k :: k in TextureIndex(defs) ==>
      TextureIndex(defs)[k] == WithTexture(defs, k) && TextureIndex(defs)[k] != []
  {
    forall k
      ensures k in TextureIndex(defs) <==> exists i :: 0 <= i < |defs| && defs[i].texture == k
      ensures k in TextureIndex(defs) ==> TextureIndex(defs)[k] == WithTexture(defs, k) != []
    {
      TextureIndexGroups(map[], defs, k);
      if exists i :: 0 <= i < |defs| && defs[i].texture == k {
        var i :| 0 <= i < |defs| && defs[i].texture == k;
        assert defs[i] in WithTexture(defs, k);
      }
      if WithTexture(defs, k) != [] {
        var x := WithTexture(defs, k)[0];
        assert x in defs;
      }
    }
  }

  // ---------------------------------------------------------------------------
  // Icon rule order

  /** The sort key of line 39, `(nameContains == null ? 1 : 0, defName)`, as
      an order: rules with a name filter first, then by defName. */
  predicate IconKeyLe(x: IconRule, y: IconRule)
  {
    || (x.nameContains.Some? && y.nameContains.None?)
    || (x.nameContains.Some? == y.nameContains.Some? && NameLe(x.defName, y.defName))
  }

  /** The sort key itself: two rules tie exactly when their keys are equal. */
  function IconKey(x: IconRule): (bool, string)
  {
    (x.nameContains.Some?, x.defName)
  }

  lemma IconKeyLeReflexive(x: IconRule)
    ensures IconKeyLe(x, x)
  {
    NameLeReflexive(x.defName);
  }

  lemma IconKeyLeTotal(x: IconRule, y: IconRule)
    ensures IconKeyLe(x, y) || IconKeyLe(y, x)
  {
    NameLeTotal(x.defName, y.defName);
  }

  lemma IconKeyLeTransitive(x: IconRule, y: IconRule, z: IconRule)
    requires IconKeyLe(x, y) && IconKeyLe(y, z)
    ensures IconKeyLe(x, z)
  {
    if x.nameContains.Some? == y.nameContains.Some? == z.nameContains.Some? {
      NameLeTransitive(x.defName, y.defName, z.defName);
    }
  }

  predicate IconsOrdered(s: seq<IconRule>)
  {
    forall i, j :: 0 <= i < j < |s| ==> IconKeyLe(s[i], s[j])
  }

  /** Insert `x` before the first element whose key is not smaller. */
  function InsertIcon(x: IconRule, s: seq<IconRule>): seq<IconRule>
  {
    if s == [] || IconKeyLe(x, s[0]) then [x] + s
    else [s[0]] + InsertIcon(x, s[1..])
  }

  /** `OrderBy(...).ThenBy(...)`: a stable sort on `IconKey`. */
  function SortIcons(s: seq<IconRule>): seq<IconRule>
  {
    if s == [] then [] else InsertIcon(s[0], SortIcons(s[1..]))
  }

  lemma {:induction false} InsertIconOrdered(x: IconRule, s: seq<IconRule>)
    requires IconsOrdered(s)
    ensures IconsOrdered(InsertIcon(x, s))
    ensures multiset(InsertIcon(x, s)) == multiset{x} + multiset(s)
  {
    if s == [] || IconKeyLe(x, s[0]) {
      forall j | 0 <= j < |s| ensures IconKeyLe(x, s[j]) {
        if j > 0 {
          IconKeyLeTransitive(x, s[0], s[j]);
        }
      }
    } else {
      IconKeyLeTotal(x, s[0]);
      InsertIconOrdered(x, s[1..]);
      var t := InsertIcon(x, s[1..]);
      assert s == [s[0]] + s[1..];
      forall j | 0 <= j < |t| ensures IconKeyLe(s[0], t[j]) {
        assert t[j] in multiset(t);
        if t[j] != x {
          assert t[j] in multiset(s[1..]);
          var k :| 0 <= k < |s[1..]| && s[1..][k] == t[j];
          assert s[k + 1] == t[j];
        }
      }
    }
  }

  /** The sorted rules are ordered by key and are a permutation of the input. */
  lemma {:induction false} SortIconsOrdered(s: seq<IconRule>)
    ensures IconsOrdered(SortIcons(s))
    ensures multiset(SortIcons(s)) == multiset(s)
  {
    if s != [] {
      SortIconsOrdered(s[1..]);
      InsertIconOrdered(s[0], SortIcons(s[1..]));
      assert s == [s[0]] + s[1..];
    }
  }

  /** The rules of `s` whose key is `key`, in their order in `s`. */
  function KeyClass(s: seq<IconRule>, key: (bool, string)): seq<IconRule>
  {
    if s == [] then []
    else (if IconKey(s[0]) == key then [s[0]] else []) + KeyClass(s[1..], key)
  }

  lemma {:induction false} InsertIconStable(x: IconRule, s: seq<IconRule>, key: (bool, string))
    ensures KeyClass(InsertIcon(x, s), key) == KeyClass([x] + s, key)
  {
    assert ([x] + s)[1..] == s;
    if s != [] && !IconKeyLe(x, s[0]) {
      InsertIconStable(x, s[1..], key);
      var t := InsertIcon(x, s[1..]);
      assert ([s[0]] + t)[1..] == t;
      assert ([x] + s[1..])[1..] == s[1..];
      if IconKey(x) == key && IconKey(s[0]) == key {
        IconKeyLeReflexive(x);
        assert false;
      }
    }
  }

  /** Sorting is stable: rules with equal keys keep their declaration order. */
  lemma {:induction false} SortIconsStable(s: seq<IconRule>, key: (bool, string))
    ensures KeyClass(SortIcons(s), key) == KeyClass(s, key)
  {
    if s != [] {
      SortIconsStable(s[1..], key);
      InsertIconStable(s[0], SortIcons(s[1..]), key);
      assert ([s[0]] + SortIcons(s[1..]))[1..] == SortIcons(s[1..]);
    }
  }

  // ---------------------------------------------------------------------------
  // Icon index

  /** The inner loop of lines 47-60: append `def` to the bucket of every name
      in `names` that resolves to a body part; skip the others. */
  function AddToBuckets(idx: map<string, seq<IconRule>>, def: IconRule, names: seq<string>, bodyPartDefs: set<string>)
    : map<string, seq<IconRule>>
    decreases |names|
  {
    if names == [] then idx
    else
      var before := AddToBuckets(idx, def, names[..|names| - 1], bodyPartDefs);
      var name := names[|names| - 1];
      if name in bodyPartDefs then before[name := Get(before, name) + [def]] else before
  }

  /** The outer loop of lines 40-60 over the (sorted) rules, starting from `acc`. */
  function IconIndexFrom(acc: map<string, seq<IconRule>>, rules: seq<IconRule>, bodyPartDefs: set<string>)
    : map<string, seq<IconRule>>
    decreases |rules|
  {
    if rules == [] then acc
    else
      var last := rules[|rules| - 1];
      AddToBuckets(IconIndexFrom(acc, rules[..|rules| - 1], bodyPartDefs), last, last.bodyParts, bodyPartDefs)
  }

  /** The icon index as startup builds it from an empty dictionary. */
  function IconIndex(rules: seq<IconRule>, bodyPartDefs: set<string>): map<string, seq<IconRule>>
  {
    IconIndexFrom(map[], rules, bodyPartDefs)
  }

  /** How often `p` is listed in `names`. */
  function Occurrences(names: seq<string>, p: string): (r: nat)
    ensures r > 0 <==> p in names
    decreases |names|
  {
    if names == [] then 0
    else
      assert names == names[..|names| - 1] + [names[|names| - 1]];
      Occurrences(names[..|names| - 1], p) + (if names[|names| - 1] == p then 1 else 0)
  }

  function Repeat<T>(x: T, n: nat): (r: seq<T>)
    ensures |r| == n && forall i :: 0 <= i < n ==> r[i] == x
  {
    seq(n, i => x)
  }

  /** The bucket of body part `p`, described directly: each rule in order,
      repeated once for every time it lists `p`, provided `p` resolves. */
  function Bucket(rules: seq<IconRule>, bodyPartDefs: set<string>, p: string): (r: seq<IconRule>)
    ensures forall x :: x in r <==> x in rules && p in bodyPartDefs && p in x.bodyParts
    decreases |rules|
  {
    if rules == [] then []
    else
      var last := rules[|rules| - 1];
      assert rules == rules[..|rules| - 1] + [last];
      Bucket(rules[..|rules| - 1], bodyPartDefs, p)
        + (if p in bodyPartDefs then Repeat(last, Occurrences(last.bodyParts, p)) else [])
  }

  lemma {:induction false} AddToBucketsGet(
    idx: map<string, seq<IconRule>>, def: IconRule, names: seq<string>, bodyPartDefs: set<string>, p: string)
    ensures Get(AddToBuckets(idx, def, names, bodyPartDefs), p)
      == Get(idx, p) + (if p in bodyPartDefs then Repeat(def, Occurrences(names, p)) else [])
    ensures p in AddToBuckets(idx, def, names, bodyPartDefs) <==> p in idx || (p in bodyPartDefs && p in names)
    decreases |names|
  {
    if names != [] {
      var init := names[..|names| - 1];
      var last := names[|names| - 1];
      var before := AddToBuckets(idx, def, init, bodyPartDefs);
      AddToBucketsGet(idx, def, init, bodyPartDefs, p);
      AddToBucketsKeys(idx, def, names, bodyPartDefs, p);
      var after := AddToBuckets(idx, def, names, bodyPartDefs);
      if p !in bodyPartDefs {
        assert Get(after, p) == Get(before, p);
      } else if last == p {
        assert Get(after, p) == Get(idx, p) + Repeat(def, Occurrences(names, p)) by {
          var r0 := Repeat(def, Occurrences(init, p));
          assert Get(after, p) == Get(before, p) + [def];
          assert Repeat(def, Occurrences(names, p)) == r0 + [def];
          assert (Get(idx, p) + r0) + [def] == Get(idx, p) + (r0 + [def]);
        }
      } else {
        assert Get(after, p) == Get(idx, p) + Repeat(def, Occurrences(names, p)) by {
          assert Get(after, p) == Get(before, p);
          assert Occurrences(names, p) == Occurrences(init, p);
        }
      }
    }
  }

  lemma {:induction false} AddToBucketsKeys(
    idx: map<string, seq<IconRule>>, def: IconRule, names: seq<string>, bodyPartDefs: set<string>, p: string)
    ensures p in AddToBuckets(idx, def, names, bodyPartDefs) <==> p in idx || (p in bodyPartDefs && p in names)
    decreases |names|
  {
    if names != [] {
      var init := names[..|names| - 1];
      AddToBucketsKeys(idx, def, init, bodyPartDefs, p);
      assert names == init + [names[|names| - 1]];
    }
  }

  lemma {:induction false} IconIndexBuckets(acc: map<string, seq<IconRule>>, rules: seq<IconRule>, bodyPartDefs: set<string>, p: string)
    ensures Get(IconIndexFrom(acc, rules, bodyPartDefs), p) == Get(acc, p) + Bucket(rules, bodyPartDefs, p)
    ensures p in IconIndexFrom(acc, rules, bodyPartDefs) <==> p in acc || Bucket(rules, bodyPartDefs, p) != []
    decreases |rules|
  {
    if rules != [] {
      var init := rules[..|rules| - 1];
      var last := rules[|rules| - 1];
      IconIndexBuckets(acc, init, bodyPartDefs, p);
      AddToBucketsGet(IconIndexFrom(acc, init, bodyPartDefs), last, last.bodyParts, bodyPartDefs, p);
      assert Occurrences(last.bodyParts, p) > 0 <==> p in last.bodyParts;
    }
  }

  /** A bucket keeps the order of the rules it was spread from. */
  lemma {:induction false} BucketOrdered(rules: seq<IconRule>, bodyPartDefs: set<string>, p: string)
    requires IconsOrdered(rules)
    ensures IconsOrdered(Bucket(rules, bodyPartDefs, p))
    decreases |rules|
  {
    if rules != [] {
      var init := rules[..|rules| - 1];
      var last := rules[|rules| - 1];
      assert IconsOrdered(init);
      BucketOrdered(init, bodyPartDefs, p);
      var b := Bucket(init, bodyPartDefs, p);
      var tail := if p in bodyPartDefs then Repeat(last, Occurrences(last.bodyParts, p)) else [];
      IconKeyLeReflexive(last);
      forall x | x in b ensures IconKeyLe(x, last) {
        var m :| 0 <= m < |init| && init[m] == x;
        assert rules[m] == x;
      }
      assert forall i :: 0 <= i < |tail| ==> tail[i] == last;
      var r := b + tail;
      forall i, j | 0 <= i < j < |r| ensures IconKeyLe(r[i], r[j]) {
        if j >= |b| && i < |b| {
          assert r[i] in b;
        }
      }
    }
  }

  /** How many times `x` stands in `s`. */
  function Count<T(==)>(s: seq<T>, x: T): nat
    decreases |s|
  {
    if s == [] then 0
    else Count(s[..|s| - 1], x) + (if s[|s| - 1] == x then 1 else 0)
  }

  lemma {:induction false} CountAppend<T>(a: seq<T>, b: seq<T>, x: T)
    ensures Count(a + b, x) == Count(a, x) + Count(b, x)
    decreases |b|
  {
    if b == [] {
      assert a + b == a;
    } else {
      CountAppend(a, b[..|b| - 1], x);
      assert (a + b)[..|a + b| - 1] == a + b[..|b| - 1];
      assert (a + b)[|a + b| - 1] == b[|b| - 1];
    }
  }

  /** Nothing is deduplicated: a rule stands in the bucket of `p` once for
      every time it lists `p`, and does so for every copy of it in `rules`. */
  lemma {:induction false} BucketCount(rules: seq<IconRule>, bodyPartDefs: set<string>, p: string, x: IconRule)
    requires p in bodyPartDefs
    ensures Count(Bucket(rules, bodyPartDefs, p), x) == Count(rules, x) * Occurrences(x.bodyParts, p)
    decreases |rules|
  {
    if rules != [] {
      var init := rules[..|rules| - 1];
      var last := rules[|rules| - 1];
      var k := Occurrences(last.bodyParts, p);
      var c := Count(init, x);
      var o := Occurrences(x.bodyParts, p);
      assert (c + 1) * o == c * o + o;
      BucketCount(init, bodyPartDefs, p, x);
      RepeatCount(last, k, x);
      var b := Bucket(init, bodyPartDefs, p);
      CountAppend(b, Repeat(last, k), x);
      assert Bucket(rules, bodyPartDefs, p) == b + Repeat(last, k);
      assert Count(rules, x) == c + (if last == x then 1 else 0);
      assert Count(b, x) == c * o;
      if last == x {
        assert Count(Repeat(last, k), x) == o;
      } else {
        assert Count(Repeat(last, k), x) == 0;
      }
    }
  }

  lemma {:induction false} RepeatCount(y: IconRule, n: nat, x: IconRule)
    ensures Count(Repeat(y, n), x) == if x == y then n else 0
  {
    if n > 0 {
      RepeatCount(y, n - 1, x);
      assert Repeat(y, n)[..n - 1] == Repeat(y, n - 1);
    }
  }

  /** The icon index built from the sorted rules has an entry exactly for the
      resolving body parts some rule names; each entry is that part's bucket,
      ordered with name-filtered rules first and then by defName. */
  lemma IconIndexSpec(iconDefs: seq<IconRule>, bodyPartDefs: set<string>)
    ensures forall p :: p in IconIndex(SortIcons(iconDefs), bodyPartDefs) <==>
      p in bodyPartDefs && exists x :: x in iconDefs && p in x.bodyParts
    ensures forall p :: p in IconIndex(SortIcons(iconDefs), bodyPartDefs) ==>
      var b := IconIndex(SortIcons(iconDefs), bodyPartDefs)[p];
      b == Bucket(SortIcons(iconDefs), bodyPartDefs, p) && b != [] && IconsOrdered(b)
  {
    var sorted := SortIcons(iconDefs);
    SortIconsOrdered(iconDefs);
    forall p
      ensures p in IconIndex(sorted, bodyPartDefs) <==> p in bodyPartDefs && exists x :: x in iconDefs && p in x.bodyParts
      ensures p in IconIndex(sorted, bodyPartDefs) ==>
        var b := IconIndex(sorted, bodyPartDefs)[p];
        b == Bucket(sorted, bodyPartDefs, p) && b != [] && IconsOrdered(b)
    {
      IconIndexBuckets(map[], sorted, bodyPartDefs, p);
      BucketOrdered(sorted, bodyPartDefs, p);
      if p in bodyPartDefs && exists x :: x in iconDefs && p in x.bodyParts {
        var x :| x in iconDefs && p in x.bodyParts;
        assert x in multiset(sorted);
      }
      if Bucket(sorted, bodyPartDefs, p) != [] {
        var x := Bucket(sorted, bodyPartDefs, p)[0];
        assert x in sorted;
        assert x in multiset(sorted);
        assert x in multiset(iconDefs);
      }
    }
  }
}
