/** The issuer key table built at the start of `main`
    (tools/offline-processor/src/main.rs:78-86): every raw key string is
    decoded into a signing key, keyed by the base64 encoding of that key's own
    public key, and the pairs are collected into a map through `Result`.

    Base64 decoding of a signing key and encoding of its public key belong to
    a cryptographic library that is not part of this model; they are the
    parameters `decode` and `publicKeyOf`, and `K` is the signing key type. */
module KeyTable {
  import opened Wrappers

  /** Why no table was built: the key at `index` is the first that did not
      decode. The source reports a context message only; the index is what
      identifies that first failing key in the model. */
  datatype KeyError = KeyDecodeError(index: nat)

  /** `collect::<Result<HashMap<_, _>>>()` over the mapped keys: the first key
      that does not decode aborts the build, and an insert under an id already
      present replaces the earlier key. */
  function BuildKeyTable<K>(raw: seq<string>, decode: string -> Option<K>, publicKeyOf: K -> string)
    : (r: Result<map<string, K>, KeyError>)
    ensures r.Success? <==> forall i :: 0 <= i < |raw| ==> decode(raw[i]).Some?
    ensures r.Failure? ==>
      && r.error.index < |raw|
      && decode(raw[r.error.index]).None?
      && forall j :: 0 <= j < r.error.index ==> decode(raw[j]).Some?
    ensures r.Success? ==> forall id :: id in r.value ==> publicKeyOf(r.value[id]) == id
    decreases |raw|
  {
    if raw == [] then Success(map[])
    else
      var last := |raw| - 1;
      var prefix := BuildKeyTable(raw[..last], decode, publicKeyOf);
      if prefix.Failure? then prefix
      else match decode(raw[last])
        case None => Failure(KeyDecodeError(last))
        case Some(key) => Success(prefix.value[publicKeyOf(key) := key])
  }

  /** The keys each raw string decodes to, once all of them decode. */
  ghost predicate DecodesTo<K>(raw: seq<string>, decode: string -> Option<K>, keys: seq<K>) {
    |keys| == |raw| && forall i :: 0 <= i < |raw| ==> decode(raw[i]) == Some(keys[i])
  }

  /** No key after position `i` derives the same public key id as key `i`. */
  ghost predicate LastWithItsId<K>(keys: seq<K>, publicKeyOf: K -> string, i: nat)
    requires i < |keys|
  {
    forall j :: i < j < |keys| ==> publicKeyOf(keys[j]) != publicKeyOf(keys[i])
  }

  /** The public key ids derived from `keys`. */
  ghost function DerivedIds<K>(keys: seq<K>, publicKeyOf: K -> string): set<string> {
    set i | 0 <= i < |keys| :: publicKeyOf(keys[i])
  }

  lemma DerivedIdsOfSnoc<K>(keys: seq<K>, publicKeyOf: K -> string)
    requires |keys| > 0
    ensures DerivedIds(keys, publicKeyOf)
         == DerivedIds(keys[..|keys| - 1], publicKeyOf) + {publicKeyOf(keys[|keys| - 1])}
  {
    var last := |keys| - 1;
    var prefix := keys[..last];
    forall id | id in DerivedIds(keys, publicKeyOf)
      ensures id in DerivedIds(prefix, publicKeyOf) + {publicKeyOf(keys[last])}
    {
      var i :| 0 <= i < |keys| && id == publicKeyOf(keys[i]);
      if i < last {
        assert prefix[i] == keys[i];
      }
    }
    forall i | 0 <= i < |prefix|
      ensures publicKeyOf(prefix[i]) in DerivedIds(keys, publicKeyOf)
    {
      assert prefix[i] == keys[i];
    }
  }

  /** A successful build holds exactly the derived ids of the supplied keys,
      never a raw input string, and under each id the last key that derives
      it. Together with `BuildKeyTable`'s contract this determines the table. */
  lemma {:induction false} KeyTableContents<K>(raw: seq<string>, decode: string -> Option<K>,
                                               publicKeyOf: K -> string, keys: seq<K>)
    requires DecodesTo(raw, decode, keys)
    ensures BuildKeyTable(raw, decode, publicKeyOf).Success?
    ensures BuildKeyTable(raw, decode, publicKeyOf).value.Keys == DerivedIds(keys, publicKeyOf)
    ensures forall i :: 0 <= i < |keys| && LastWithItsId(keys, publicKeyOf, i) ==>
      BuildKeyTable(raw, decode, publicKeyOf).value[publicKeyOf(keys[i])] == keys[i]
  {
    if raw != [] {
      var last := |raw| - 1;
      var prefixKeys := keys[..last];
      assert DecodesTo(raw[..last], decode, prefixKeys);
      KeyTableContents(raw[..last], decode, publicKeyOf, prefixKeys);
      DerivedIdsOfSnoc(keys, publicKeyOf);
      var before := BuildKeyTable(raw[..last], decode, publicKeyOf).value;
      var table := BuildKeyTable(raw, decode, publicKeyOf).value;
      assert table == before[publicKeyOf(keys[last]) := keys[last]];
      forall i | 0 <= i < |keys| && LastWithItsId(keys, publicKeyOf, i)
        ensures table[publicKeyOf(keys[i])] == keys[i]
      {
        if i < last {
          assert prefixKeys[i] == keys[i];
          assert LastWithItsId(prefixKeys, publicKeyOf, i);
          assert publicKeyOf(keys[last]) != publicKeyOf(keys[i]);
        }
      }
    }
  }
}
