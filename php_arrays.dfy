/** PHP ordered arrays, as far as `plugin_settings_link` uses them: the
    `(array)` cast of its argument and `array_merge`.

    A PHP array is a sequence of key/value entries in insertion order; a key
    is a string or an integer. */
module PhpArrays {
  import opened PhpValues

  datatype Key = StrKey(name: string) | IntKey(index: int)

  type Entry = (Key, string)

  type PhpArray = seq<Entry>

  /** A filter argument of unknown type (`array|mixed`): null, a string, or an array. */
  datatype Mixed = Null | Text(s: string) | Arr(entries: PhpArray)

  function KeySet(a: PhpArray): set<Key>
  {
    if a == [] then {} else {a[0].0} + KeySet(a[1..])
  }

  /** Every key occurs once: what a PHP array always satisfies. */
  predicate KeysDistinct(a: PhpArray)
  {
    a == [] || (a[0].0 !in KeySet(a[1..]) && KeysDistinct(a[1..]))
  }

  /** `$a[$k] ?? null`. */
  function Lookup(a: PhpArray, k: Key): (r: Option<string>)
    ensures r.Some? <==> k in KeySet(a)
  {
    if a == [] then None else if a[0].0 == k then Some(a[0].1) else Lookup(a[1..], k)
  }

  /** `(array) $x`: null becomes the empty array, a scalar the one-element
      array `[0 => $x]`, and an array stays as it is. So the result is a PHP
      array, no key twice, whenever an array argument is one. */
  function ArrayCast(m: Mixed): (r: PhpArray)
    ensures (m.Arr? ==> KeysDistinct(m.entries)) ==> KeysDistinct(r)
    ensures m.Arr? ==> r == m.entries
  {
    match m
    case Null => []
    case Text(s) => [(IntKey(0), s)]
    case Arr(entries) => entries
  }

  /** `$a[$k] = $v` for a string key: the value of an existing key is
      replaced where it stands, a new key is appended. */
  function Update(a: PhpArray, k: Key, v: string): (r: PhpArray)
    ensures KeySet(r) == KeySet(a) + {k}
  {
    if a == [] then [(k, v)]
    else if a[0].0 == k then [(k, v)] + a[1..]
    else [a[0]] + Update(a[1..], k, v)
  }

  /** Copies `src` into `dest` the way `array_merge` does: a string key is
      written with Update, so a later value overwrites an earlier one in the
      earlier one's place; an integer key is dropped and the value appended
      under `next`, the next free index of `dest`, which then grows by one. */
  function MergeInto(dest: PhpArray, next: int, src: PhpArray): PhpArray
    decreases |src|
  {
    if src == [] then dest
    else
      match src[0].0
      case StrKey(_) => MergeInto(Update(dest, src[0].0, src[0].1), next, src[1..])
      case IntKey(_) => MergeInto(dest + [(IntKey(next), src[0].1)], next + 1, src[1..])
  }

  /** `array_merge( $a, $b )`: both arrays copied in turn into a fresh array,
      whose integer keys therefore start again at 0. */
  function ArrayMerge(a: PhpArray, b: PhpArray): PhpArray
  {
    MergeInto([], 0, a + b)
  }

  /** `a` without its entry for `k`. */
  function Without(a: PhpArray, k: Key): (r: PhpArray)
    ensures KeySet(r) == KeySet(a) - {k}
  {
    if a == [] then []
    else if a[0].0 == k then Without(a[1..], k)
    else [a[0]] + Without(a[1..], k)
  }

  /** `a` with its integer keys replaced by `n`, `n + 1`, … in order. */
  function Renumber(a: PhpArray, n: int): PhpArray
  {
    if a == [] then []
    else if a[0].0.IntKey? then [(IntKey(n), a[0].1)] + Renumber(a[1..], n + 1)
    else [a[0]] + Renumber(a[1..], n)
  }

  lemma {:induction false} KeySetAppend(a: PhpArray, e: Entry)
    ensures KeySet(a + [e]) == KeySet(a) + {e.0}
  {
    if a != [] {
      assert (a + [e])[1..] == a[1..] + [e];
      KeySetAppend(a[1..], e);
    }
  }

  /** Writing a key that is not there appends it. */
  lemma {:induction false} UpdateAbsent(a: PhpArray, k: Key, v: string)
    requires k !in KeySet(a)
    ensures Update(a, k, v) == a + [(k, v)]
  {
    if a != [] {
      UpdateAbsent(a[1..], k, v);
    }
  }

  /** Merging into a non-empty array never moves its first entry's key. */
  lemma {:induction false} MergeKeepsHead(dest: PhpArray, next: int, src: PhpArray)
    requires dest != []
    ensures MergeInto(dest, next, src) != []
    ensures MergeInto(dest, next, src)[0].0 == dest[0].0
    decreases |src|
  {
    if src != [] {
      match src[0].0
      case StrKey(_) =>
        MergeKeepsHead(Update(dest, src[0].0, src[0].1), next, src[1..]);
      case IntKey(_) =>
        MergeKeepsHead(dest + [(IntKey(next), src[0].1)], next + 1, src[1..]);
    }
  }

  /** array_merge( [ s => w ] + R, src ) when `src` has distinct keys and
      shares no string key with R except possibly `s` itself: `s` keeps the
      first place and takes `src`'s value if `src` has one, R follows
      unchanged, then the rest of `src` in order with integer keys renumbered
      from `next`. */
  lemma {:induction false} MergeAfterHead(s: Key, w: string, rest: PhpArray, next: int, src: PhpArray)
    requires s.StrKey? && s !in KeySet(rest)
    requires KeysDistinct(src)
    requires forall k :: k in KeySet(src) && k.StrKey? && k != s ==> k !in KeySet(rest)
    ensures MergeInto([(s, w)] + rest, next, src)
         == [(s, Lookup(src, s).GetOr(w))] + rest + Renumber(Without(src, s), next)
    decreases |src|, 1
  {
    if src != [] {
      var k := src[0].0;
      if k == s {
        MergeAfterHeadSame(s, w, rest, next, src);
      } else if k.StrKey? {
        MergeAfterHeadString(s, w, rest, next, src);
      } else {
        MergeAfterHeadInt(s, w, rest, next, src);
      }
    }
  }

  /** MergeAfterHead when `src` starts with `s` itself: its value replaces `w`. */
  lemma {:induction false} MergeAfterHeadSame(s: Key, w: string, rest: PhpArray, next: int, src: PhpArray)
    requires s.StrKey? && s !in KeySet(rest)
    requires KeysDistinct(src)
    requires forall k :: k in KeySet(src) && k.StrKey? && k != s ==> k !in KeySet(rest)
    requires src != [] && src[0].0 == s
    ensures MergeInto([(s, w)] + rest, next, src)
         == [(s, Lookup(src, s).GetOr(w))] + rest + Renumber(Without(src, s), next)
    decreases |src|, 0
  {
    var v, tail := src[0].1, src[1..];
    assert KeySet(tail) <= KeySet(src);
    assert Update([(s, w)] + rest, s, v) == [(s, v)] + rest;
    MergeAfterHead(s, v, rest, next, tail);
    assert Lookup(tail, s) == None;
  }

  /** MergeAfterHead when `src` starts with a new string key: it is appended after `rest`. */
  lemma {:induction false} MergeAfterHeadString(s: Key, w: string, rest: PhpArray, next: int, src: PhpArray)
    requires s.StrKey? && s !in KeySet(rest)
    requires KeysDistinct(src)
    requires forall k :: k in KeySet(src) && k.StrKey? && k != s ==> k !in KeySet(rest)
    requires src != [] && src[0].0 != s && src[0].0.StrKey?
    ensures MergeInto([(s, w)] + rest, next, src)
         == [(s, Lookup(src, s).GetOr(w))] + rest + Renumber(Without(src, s), next)
    decreases |src|, 0
  {
    var (k, v) := src[0];
    var tail := src[1..];
    assert KeySet(tail) <= KeySet(src);
    assert k !in KeySet(rest);
    UpdateBehindHead(s, w, rest, k, v);
    MergeAfterHead(s, w, rest + [(k, v)], next, tail);
  }

  /** Writing a new key `k` into `[ s => w ] + rest` appends it after `rest`. */
  lemma UpdateBehindHead(s: Key, w: string, rest: PhpArray, k: Key, v: string)
    requires k != s && k !in KeySet(rest)
    ensures Update([(s, w)] + rest, k, v) == [(s, w)] + (rest + [(k, v)])
    ensures KeySet(rest + [(k, v)]) == KeySet(rest) + {k}
  {
    assert ([(s, w)] + rest)[1..] == rest;
    UpdateAbsent(rest, k, v);
    KeySetAppend(rest, (k, v));
  }

  /** MergeAfterHead when `src` starts with an integer key: the value is appended under `next`. */
  lemma {:induction false} MergeAfterHeadInt(s: Key, w: string, rest: PhpArray, next: int, src: PhpArray)
    requires s.StrKey? && s !in KeySet(rest)
    requires KeysDistinct(src)
    requires forall k :: k in KeySet(src) && k.StrKey? && k != s ==> k !in KeySet(rest)
    requires src != [] && src[0].0.IntKey?
    ensures MergeInto([(s, w)] + rest, next, src)
         == [(s, Lookup(src, s).GetOr(w))] + rest + Renumber(Without(src, s), next)
    decreases |src|, 0
  {
    var v, tail := src[0].1, src[1..];
    assert KeySet(tail) <= KeySet(src);
    KeySetAppend(rest, (IntKey(next), v));
    assert [(s, w)] + rest + [(IntKey(next), v)] == [(s, w)] + (rest + [(IntKey(next), v)]);
    MergeAfterHead(s, w, rest + [(IntKey(next), v)], next + 1, tail);
  }

  lemma {:induction false} WithoutDistinct(a: PhpArray, k: Key)
    requires KeysDistinct(a)
    ensures KeysDistinct(Without(a, k))
  {
    if a != [] {
      WithoutDistinct(a[1..], k);
    }
  }

  /** Renumbering keeps string keys and gives integer keys from `n` upward. */
  lemma {:induction false} RenumberKeys(a: PhpArray, n: int)
    ensures forall k :: k in KeySet(Renumber(a, n)) ==>
      (k.StrKey? && k in KeySet(a)) || (k.IntKey? && k.index >= n)
  {
    if a != [] {
      if a[0].0.IntKey? {
        RenumberKeys(a[1..], n + 1);
      } else {
        RenumberKeys(a[1..], n);
      }
    }
  }

  /** Renumbering a PHP array yields a PHP array. */
  lemma {:induction false} RenumberDistinct(a: PhpArray, n: int)
    requires KeysDistinct(a)
    ensures KeysDistinct(Renumber(a, n))
  {
    if a != [] {
      if a[0].0.IntKey? {
        RenumberKeys(a[1..], n + 1);
        RenumberDistinct(a[1..], n + 1);
      } else {
        RenumberKeys(a[1..], n);
        RenumberDistinct(a[1..], n);
      }
    }
  }
}
