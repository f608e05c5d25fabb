/** Scans of a key-value store whose iterator visits the keys in alphabetical order. */
module OrderedStore {
  import opened Sequences
  import opened Numerals

  ghost predicate Ascending(keys: seq<string>) {
    forall i, j :: 0 <= i < j < |keys| ==> Less(keys[i], keys[j])
  }

  /** What the iterator of a store with these keys visits. */
  ghost predicate Visits(keys: seq<string>, all: set<string>) {
    Ascending(keys) && Elems(keys) == all
  }

  /** `key.find(prefix) == 0`. */
  predicate HasPrefix(key: string, prefix: string) {
    prefix <= key
  }

  function WithPrefix(keys: seq<string>, prefix: string): seq<string> {
    if keys == [] then [] else (if HasPrefix(keys[0], prefix) then [keys[0]] else []) + WithPrefix(keys[1..], prefix)
  }

  /** Keys before the prefix do not have it. */
  lemma {:induction false} BeforePrefix(key: string, prefix: string)
    requires Less(key, prefix)
    ensures !HasPrefix(key, prefix)
  {
    if key != [] && key[0] == prefix[0] {
      BeforePrefix(key[1..], prefix[1..]);
    }
  }

  /** Once a key at or behind the prefix lacks it, so do all later keys. */
  lemma {:induction false} BeyondPrefix(a: string, b: string, prefix: string)
    requires !Less(a, prefix) && !HasPrefix(a, prefix) && Less(a, b)
    ensures !HasPrefix(b, prefix)
  {
    if HasPrefix(b, prefix) {
      if prefix != [] && a != [] && a[0] == prefix[0] {
        BeyondPrefix(a[1..], b[1..], prefix[1..]);
      }
    }
  }

  lemma {:induction false} NoneWithPrefix(keys: seq<string>, prefix: string)
    requires forall i :: 0 <= i < |keys| ==> !HasPrefix(keys[i], prefix)
    ensures WithPrefix(keys, prefix) == []
  {
    if keys != [] {
      NoneWithPrefix(keys[1..], prefix);
    }
  }

  lemma {:induction false} WithPrefixConcat(a: seq<string>, b: seq<string>, prefix: string)
    ensures WithPrefix(a + b, prefix) == WithPrefix(a, prefix) + WithPrefix(b, prefix)
  {
    if a == [] {
      assert a + b == b;
    } else {
      assert (a + b)[1..] == a[1..] + b;
      WithPrefixConcat(a[1..], b, prefix);
    }
  }

  lemma {:induction false} WithPrefixElems(keys: seq<string>, prefix: string)
    ensures forall k :: k in WithPrefix(keys, prefix) <==> k in keys && HasPrefix(k, prefix)
    ensures Ascending(keys) ==> Ascending(WithPrefix(keys, prefix))
  {
    if keys != [] {
      WithPrefixElems(keys[1..], prefix);
      assert keys == [keys[0]] + keys[1..];
      var rest := WithPrefix(keys[1..], prefix);
      if Ascending(keys) {
        forall j | 0 <= j < |rest| ensures Less(keys[0], rest[j]) {
          assert rest[j] in keys[1..];
        }
      }
    }
  }

  /** The position the iterator seeks to: the first key not before the prefix. */
  method Seek(keys: seq<string>, prefix: string) returns (i: nat)
    ensures i <= |keys| && forall j :: 0 <= j < i ==> Less(keys[j], prefix)
    ensures i < |keys| ==> !Less(keys[i], prefix)
  {
    i := 0;
    while i < |keys| && Less(keys[i], prefix)
      invariant i <= |keys| && forall j :: 0 <= j < i ==> Less(keys[j], prefix)
    {
      i := i + 1;
    }
  }

  /** Seek, then stop at the first key without the prefix: exactly the keys with it are visited. */
  method ScanPrefix(keys: seq<string>, prefix: string) returns (found: seq<string>)
    requires Ascending(keys)
    ensures found == WithPrefix(keys, prefix)
  {
    var start := Seek(keys, prefix);
    var i := start;
    found := [];
    while i < |keys| && HasPrefix(keys[i], prefix)
      invariant start <= i <= |keys| && found == keys[start..i]
      invariant forall j :: start <= j < i ==> HasPrefix(keys[j], prefix)
    {
      found := found + [keys[i]];
      i := i + 1;
    }
    ScanIsExact(keys, prefix, start, i);
  }

  lemma ScanIsExact(keys: seq<string>, prefix: string, start: nat, end: nat)
    requires Ascending(keys) && start <= end <= |keys|
    requires forall j :: 0 <= j < start ==> Less(keys[j], prefix)
    requires start < |keys| ==> !Less(keys[start], prefix)
    requires forall j :: start <= j < end ==> HasPrefix(keys[j], prefix)
    requires end < |keys| ==> !HasPrefix(keys[end], prefix)
    ensures WithPrefix(keys, prefix) == keys[start..end]
  {
    var a, b, c := keys[..start], keys[start..end], keys[end..];
    HeadLacks(a, prefix);
    AllWithPrefix(b, prefix);
    TailLacks(keys, prefix, start, end);
    hide Ascending, WithPrefix, HasPrefix, Less;
    OnlyMiddle(a, b, c, prefix);
    ThreeParts(keys, start, end);
  }

  lemma ThreeParts(keys: seq<string>, start: nat, end: nat)
    requires start <= end <= |keys|
    ensures keys[..start] + keys[start..end] + keys[end..] == keys
  {
  }

  lemma OnlyMiddle(a: seq<string>, b: seq<string>, c: seq<string>, prefix: string)
    requires WithPrefix(a, prefix) == [] && WithPrefix(b, prefix) == b && WithPrefix(c, prefix) == []
    ensures WithPrefix(a + b + c, prefix) == b
  {
    hide WithPrefix;
    WithPrefixConcat(a + b, c, prefix);
    WithPrefixConcat(a, b, prefix);
  }

  lemma HeadLacks(keys: seq<string>, prefix: string)
    requires forall j :: 0 <= j < |keys| ==> Less(keys[j], prefix)
    ensures WithPrefix(keys, prefix) == []
  {
    forall j | 0 <= j < |keys| ensures !HasPrefix(keys[j], prefix) {
      BeforePrefix(keys[j], prefix);
    }
    NoneWithPrefix(keys, prefix);
  }

  lemma TailLacks(keys: seq<string>, prefix: string, start: nat, end: nat)
    requires Ascending(keys) && start <= end <= |keys|
    requires start < |keys| ==> !Less(keys[start], prefix)
    requires end < |keys| ==> !HasPrefix(keys[end], prefix)
    ensures WithPrefix(keys[end..], prefix) == []
  {
    var c := keys[end..];
    forall j | 0 <= j < |c| ensures !HasPrefix(c[j], prefix) {
      if j > 0 {
        NotBefore(keys, prefix, start, end);
        BeyondPrefix(keys[end], keys[end + j], prefix);
      }
    }
    NoneWithPrefix(c, prefix);
  }

  lemma {:induction false} AllWithPrefix(keys: seq<string>, prefix: string)
    requires forall j :: 0 <= j < |keys| ==> HasPrefix(keys[j], prefix)
    ensures WithPrefix(keys, prefix) == keys
  {
    if keys != [] {
      AllWithPrefix(keys[1..], prefix);
    }
  }

  lemma NotBefore(keys: seq<string>, prefix: string, start: nat, k: nat)
    requires Ascending(keys) && start <= k < |keys| && !Less(keys[start], prefix)
    ensures !Less(keys[k], prefix)
  {
    if Less(keys[k], prefix) && start < k {
      LessTrans(keys[start], keys[k], prefix);
    }
  }
}
