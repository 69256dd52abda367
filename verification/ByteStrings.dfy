/** Byte strings, their lexicographic order (the order of `Vec<u8>`), and the half-open
    key range by which the etcd model reads all keys under a prefix. */
module ByteStrings {

  type byte = b: int | 0 <= b < 256

  type Bytes = seq<byte>

  datatype Option<+T> = None | Some(value: T)

  /** A lower-case hexadecimal digit in ASCII. */
  function HexDigit(d: int): byte
    requires 0 <= d < 16
  {
    if d < 10 then 48 + d else 87 + d
  }

  /** Strict lexicographic order. */
  predicate Less(a: Bytes, b: Bytes) {
    |b| > 0 && (|a| == 0 || a[0] < b[0] || (a[0] == b[0] && Less(a[1..], b[1..])))
  }

  lemma {:induction false} LessTrichotomy(a: Bytes, b: Bytes)
    ensures a == b || Less(a, b) || Less(b, a)
    ensures !(Less(a, b) && Less(b, a))
    ensures !Less(a, a)
  {
    if |a| > 0 && |b| > 0 {
      LessTrichotomy(a[1..], b[1..]);
      assert a == [a[0]] + a[1..] && b == [b[0]] + b[1..];
    }
    if |a| > 0 { LessTrichotomy(a[1..], a[1..]); }
  }

  lemma {:induction false} LessTransitive(a: Bytes, b: Bytes, c: Bytes)
    requires Less(a, b) && Less(b, c)
    ensures Less(a, c)
  {
    if |a| > 0 && a[0] == b[0] == c[0] {
      LessTransitive(a[1..], b[1..], c[1..]);
    }
  }

  /** The keys for which the end of the range can be computed: the source increments the last
      byte of the name, which fails on the empty name and overflows on 255. */
  predicate Rangeable(name: Bytes) {
    name != [] && name[|name| - 1] < 255
  }

  /** The exclusive end of the range: the name with its last byte incremented. */
  function PrefixEnd(name: Bytes): Bytes
    requires Rangeable(name)
  {
    name[..|name| - 1] + [name[|name| - 1] + 1]
  }

  predicate InRange(name: Bytes, key: Bytes)
    requires Rangeable(name)
  {
    !Less(key, name) && Less(key, PrefixEnd(name))
  }

  /** The range [name, name with its last byte + 1) holds exactly the keys that start with name. */
  lemma {:induction false} RangeIsPrefix(name: Bytes, key: Bytes)
    requires Rangeable(name)
    ensures InRange(name, key) <==> name <= key
  {
    if |name| == 1 {
      assert |key| > 0 ==> (Less(key[1..], []) == false);
    } else if |key| > 0 && key[0] == name[0] {
      var rest := name[1..];
      assert rest[|rest| - 1] == name[|name| - 1];
      RangeIsPrefix(rest, key[1..]);
      assert PrefixEnd(name)[1..] == PrefixEnd(rest);
      assert name <= key <==> rest <= key[1..] by {
        assert name == [name[0]] + rest && key == [key[0]] + key[1..];
        if rest <= key[1..] {
          assert key[1..] == rest + key[1..][|rest|..];
          assert key == name + key[1..][|rest|..];
        }
        if name <= key {
          assert key == name + key[|name|..];
          assert key[1..] == rest + key[|name|..];
        }
      }
    }
  }

  /** The first element of a non-empty set in lexicographic order. */
  predicate IsFirst(keys: set<Bytes>, k: Bytes) {
    k in keys && forall other :: other in keys && other != k ==> Less(k, other)
  }

  lemma {:induction false} FirstExists(keys: set<Bytes>)
    requires keys != {}
    ensures exists k :: IsFirst(keys, k)
    decreases |keys|
  {
    var x :| x in keys;
    if keys == {x} {
      assert IsFirst(keys, x);
    } else {
      FirstExists(keys - {x});
      var y :| IsFirst(keys - {x}, y);
      LessTrichotomy(x, y);
      if Less(x, y) {
        forall other | other in keys && other != x ensures Less(x, other) {
          if other != y { LessTransitive(x, y, other); }
        }
        assert IsFirst(keys, x);
      } else {
        assert IsFirst(keys, y);
      }
    }
  }

  /** The keys of a set in ascending order, as a `BTreeMap` iterates over them. */
  function Ascending(keys: set<Bytes>): (r: seq<Bytes>)
    ensures forall k :: k in r <==> k in keys
    ensures forall i, j :: 0 <= i < j < |r| ==> Less(r[i], r[j])
    decreases |keys|
  {
    if keys == {} then []
    else
      FirstExists(keys);
      assert forall a, b :: IsFirst(keys, a) && IsFirst(keys, b) ==> a == b by {
        forall a, b | IsFirst(keys, a) && IsFirst(keys, b) ensures a == b { LessTrichotomy(a, b); }
      }
      var k :| k in keys && IsFirst(keys, k);
      [k] + Ascending(keys - {k})
  }
}
