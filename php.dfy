/** The small part of the PHP runtime that the framework's logic relies on:
    values, ordered arrays with string keys, truthiness, the string
    conversion of `.`, the loose `==` of a `switch` against a string label,
    `htmlspecialchars`, `ltrim` and `implode`. */
module Php {

  /** A value that may be absent (`null`). */
  datatype Option<T> = None | Some(value: T)

  /** A PHP value as the framework sees it (floats and objects are not modelled). */
  datatype Value =
    | Null
    | Bool(b: bool)
    | Int(i: int)
    | Str(s: string)
    | Arr(entries: Dict)

  /** One `key => value` pair of a PHP array. */
  datatype Entry = Entry(key: string, val: Value)

  /** A PHP array with string keys, in insertion order. */
  type Dict = seq<Entry>

  /** The keys of `a` are the first keys of `b`, in the same order. */
  predicate KeysPrefix(a: Dict, b: Dict)
  {
    |a| <= |b| && forall i :: 0 <= i < |a| ==> a[i].key == b[i].key
  }

  /** A PHP array never holds the same key twice. */
  predicate Unique(d: Dict)
  {
    forall i, j :: 0 <= i < j < |d| ==> d[i].key != d[j].key
  }

  lemma PrefixTrans(a: Dict, b: Dict, c: Dict)
    requires KeysPrefix(a, b) && KeysPrefix(b, c)
    ensures KeysPrefix(a, c)
  {
  }

  /** Position of the first entry with key `k`, or -1 when there is none. */
  function IndexOf(d: Dict, k: string): (idx: int)
    ensures -1 <= idx < |d|
    ensures idx >= 0 ==> d[idx].key == k
    ensures idx >= 0 ==> forall j :: 0 <= j < idx ==> d[j].key != k
    ensures idx < 0 ==> forall j :: 0 <= j < |d| ==> d[j].key != k
  {
    if d == [] then -1
    else if d[0].key == k then 0
    else
      var rest := IndexOf(d[1..], k);
      if rest < 0 then -1 else rest + 1
  }

  /** `isset`-style key test (array_key_exists). */
  predicate HasKey(d: Dict, k: string)
  {
    IndexOf(d, k) >= 0
  }

  lemma HasKeyAt(d: Dict, k: string, i: int)
    requires 0 <= i < |d| && d[i].key == k
    ensures HasKey(d, k)
  {
  }

  /** The first index holding `k` is the one IndexOf finds. */
  lemma IndexOfIs(d: Dict, k: string, i: int)
    requires 0 <= i < |d| && d[i].key == k
    requires forall j :: 0 <= j < i ==> d[j].key != k
    ensures IndexOf(d, k) == i
  {
    assert IndexOf(d, k) >= 0;
  }

  /** `$d[$k]`: the value stored under `k`, or null when `k` is absent. */
  function Get(d: Dict, k: string): (v: Value)
    ensures !HasKey(d, k) ==> v == Null
    ensures Unique(d) ==> forall i :: 0 <= i < |d| && d[i].key == k ==> v == d[i].val
  {
    var idx := IndexOf(d, k);
    if idx < 0 then Null else d[idx].val
  }

  /** `$d[$k] = $v`: an existing key is overwritten where it stands, a new
      key is appended at the end. */
  function Set(d: Dict, k: string, v: Value): (r: Dict)
    ensures !HasKey(d, k) ==> r == d + [Entry(k, v)]
    ensures HasKey(d, k) ==> |r| == |d| && r[IndexOf(d, k)] == Entry(k, v)
    ensures HasKey(d, k) ==> forall i :: 0 <= i < |d| && i != IndexOf(d, k) ==> r[i] == d[i]
    ensures KeysPrefix(d, r)
    ensures Get(r, k) == v
    ensures forall k' :: k' != k ==> Get(r, k') == Get(d, k')
    ensures forall k' :: HasKey(r, k') <==> HasKey(d, k') || k' == k
    ensures Unique(d) ==> Unique(r)
  {
    var idx := IndexOf(d, k);
    var r := if idx < 0 then d + [Entry(k, v)] else d[idx := Entry(k, v)];
    IndexOfIs(r, k, if idx < 0 then |d| else idx);
    forall k' | k' != k
      ensures IndexOf(r, k') == IndexOf(d, k')
    {
      var a, b := IndexOf(r, k'), IndexOf(d, k');
      if a >= 0 && a < |d| {
        assert d[a].key == k';
      }
      if b >= 0 {
        assert r[b].key == k';
      }
    }
    r
  }

  /** The keys of a non-empty array are its first key and the keys of the rest. */
  lemma HasKeyTail(d: Dict, k: string)
    requires d != []
    ensures HasKey(d, k) <==> k == d[0].key || HasKey(d[1..], k)
  {
    if HasKey(d[1..], k) {
      HasKeyAt(d, k, IndexOf(d[1..], k) + 1);
    }
  }

  /** In an array without duplicate keys, the rest does not hold the first
      key and agrees with the whole array on every other key. */
  lemma GetTail(d: Dict, k: string)
    requires d != [] && Unique(d)
    ensures !HasKey(d[1..], d[0].key)
    ensures k != d[0].key ==> Get(d, k) == Get(d[1..], k)
  {
  }

  /** `array_merge($base, $over)` for string keys: the keys of `over`
      overwrite those of `base` in place, new keys follow in `over`'s order. */
  function Merge(base: Dict, over: Dict): (r: Dict)
    ensures KeysPrefix(base, r)
    decreases |over|
  {
    if over == [] then base
    else
      var r := Merge(Set(base, over[0].key, over[0].val), over[1..]);
      PrefixTrans(base, Set(base, over[0].key, over[0].val), r);
      r
  }

  /** The merged array holds exactly the keys of both arrays. */
  lemma {:induction false} MergeKeys(base: Dict, over: Dict, k: string)
    ensures HasKey(Merge(base, over), k) <==> HasKey(base, k) || HasKey(over, k)
    decreases |over|
  {
    if over != [] {
      HasKeyTail(over, k);
      MergeKeys(Set(base, over[0].key, over[0].val), over[1..], k);
    }
  }

  /** Merging keeps the keys distinct. */
  lemma {:induction false} MergeUnique(base: Dict, over: Dict)
    requires Unique(base)
    ensures Unique(Merge(base, over))
    decreases |over|
  {
    if over != [] {
      MergeUnique(Set(base, over[0].key, over[0].val), over[1..]);
    }
  }

  /** A key of `over` takes `over`'s value; any other key keeps `base`'s. */
  lemma {:induction false} MergeGet(base: Dict, over: Dict, k: string)
    requires Unique(over)
    ensures Get(Merge(base, over), k) == if HasKey(over, k) then Get(over, k) else Get(base, k)
    decreases |over|
  {
    if over != [] {
      HasKeyTail(over, k);
      GetTail(over, k);
      assert Unique(over[1..]);
      MergeGet(Set(base, over[0].key, over[0].val), over[1..], k);
    }
  }

  /** Assigning a key the value it already holds changes nothing. */
  lemma SetSame(d: Dict, k: string)
    requires Unique(d) && HasKey(d, k)
    ensures Set(d, k, Get(d, k)) == d
  {
    var r := Set(d, k, Get(d, k));
    assert forall i :: 0 <= i < |d| ==> r[i] == d[i];
  }

  /** Merging onto `acc`, whose keys are a prefix of `p`'s and whose first
      `j` entries already agree with `p`, the rest of `p` rebuilds `p`. */
  lemma {:induction false} MergeRebuilds(acc: Dict, p: Dict, j: nat)
    requires Unique(p) && j <= |acc| <= |p|
    requires forall i :: 0 <= i < |acc| ==> acc[i].key == p[i].key
    requires forall i :: 0 <= i < j ==> acc[i] == p[i]
    ensures Merge(acc, p[j..]) == p
    decreases |p| - j
  {
    if j == |p| {
      assert acc == p;
    } else {
      var e := p[j];
      if j < |acc| {
        IndexOfIs(acc, e.key, j);
      } else {
        assert !HasKey(acc, e.key);
      }
      assert p[j..][1..] == p[j + 1..];
      MergeRebuilds(Set(acc, e.key, e.val), p, j + 1);
    }
  }

  /** `array_merge($base, $p)` is `$p` itself when `$p` already starts with
      `$base`'s keys in `$base`'s order. */
  lemma MergeOntoExtension(base: Dict, p: Dict)
    requires Unique(p) && KeysPrefix(base, p)
    ensures Merge(base, p) == p
  {
    assert p[0..] == p;
    MergeRebuilds(base, p, 0);
  }

  /** PHP truthiness, as in `if ($v)`. */
  predicate Truthy(v: Value)
  {
    match v
    case Null => false
    case Bool(b) => b
    case Int(i) => i != 0
    case Str(s) => s != "" && s != "0"
    case Arr(es) => es != []
  }

  function DigitChar(d: nat): char
    requires d < 10
  {
    "0123456789"[d]
  }

  function NatToString(n: nat): string
  {
    if n < 10 then [DigitChar(n)] else NatToString(n / 10) + [DigitChar(n % 10)]
  }

  /** The string an operand becomes under `.` (an array becomes "Array"). */
  function ToStr(v: Value): string
  {
    match v
    case Null => ""
    case Bool(b) => if b then "1" else ""
    case Int(i) => if i < 0 then "-" + NatToString(-i) else NatToString(i)
    case Str(s) => s
    case Arr(_) => "Array"
  }

  /** PHP 8's `$v == $label` for a `switch` case label that is a non-empty,
      non-numeric string: a string matches itself, `true` matches every such
      label, and null, false, integers and arrays match none. */
  predicate LooseEqualsLabel(v: Value, lit: string)
  {
    match v
    case Str(s) => s == lit
    case Bool(b) => b
    case _ => false
  }

  /** The characters `htmlspecialchars` rewrites (ENT_QUOTES). */
  predicate Special(c: char)
  {
    c == '&' || c == '<' || c == '>' || c == '"' || c == '\''
  }

  function EscapeChar(c: char): string
  {
    if c == '&' then "&amp;"
    else if c == '<' then "&lt;"
    else if c == '>' then "&gt;"
    else if c == '"' then "&quot;"
    else if c == '\'' then "&#039;"
    else [c]
  }

  /** `htmlspecialchars($s)` with PHP 8.1's default flags. */
  function Escape(s: string): string
  {
    if s == [] then [] else EscapeChar(s[0]) + Escape(s[1..])
  }

  /** No escaped string holds a character that could open or close a tag or
      end a quoted attribute value. */
  lemma {:induction false} EscapeInert(s: string)
    ensures forall i :: 0 <= i < |Escape(s)| ==>
      Escape(s)[i] != '<' && Escape(s)[i] != '>' && Escape(s)[i] != '"' && Escape(s)[i] != '\''
  {
    if s != [] {
      EscapeInert(s[1..]);
      var h, t := EscapeChar(s[0]), Escape(s[1..]);
      assert forall i :: 0 <= i < |h + t| ==> (h + t)[i] == if i < |h| then h[i] else t[i - |h|];
    }
  }

  /** A string without special characters is left as it is, and no string
      gets shorter. */
  lemma {:induction false} EscapePlain(s: string)
    ensures (forall i :: 0 <= i < |s| ==> !Special(s[i])) ==> Escape(s) == s
    ensures |s| <= |Escape(s)|
  {
    if s != [] {
      EscapePlain(s[1..]);
      if forall i :: 0 <= i < |s| ==> !Special(s[i]) {
        assert forall i :: 0 <= i < |s[1..]| ==> !Special(s[1..][i]) by {
          forall i | 0 <= i < |s[1..]| ensures !Special(s[1..][i]) {
            assert s[1..][i] == s[i + 1];
          }
        }
        assert [s[0]] + s[1..] == s;
      }
    }
  }

  /** `ltrim($s, c)`. */
  function LTrim(s: string, c: char): (r: string)
    ensures |r| <= |s| && r == s[|s| - |r|..]
    ensures r == [] || r[0] != c
    ensures forall i :: 0 <= i < |s| - |r| ==> s[i] == c
  {
    if s != [] && s[0] == c then LTrim(s[1..], c) else s
  }

  /** A prefix of `a` is a prefix of `a . b`. */
  lemma PrefixAppend(p: string, a: string, b: string)
    requires p <= a
    ensures p <= a + b
  {
    assert (a + b)[..|a|] == a;
  }

  /** String concatenation is associative. */
  lemma ConcatAssoc(a: string, b: string, c: string)
    ensures a + b + c == a + (b + c)
  {
  }

  /** `implode($sep, $parts)`. */
  function Implode(sep: string, parts: seq<string>): string
  {
    if |parts| == 0 then ""
    else if |parts| == 1 then parts[0]
    else Implode(sep, parts[..|parts| - 1]) + sep + parts[|parts| - 1]
  }
}
