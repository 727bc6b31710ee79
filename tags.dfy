/** Transaction tags, already decoded to strings, and the first-match lookup
    that `tagValue` (deployContractRoute.ts) and `getContentTypeTag`
    (contractsMetadata.ts) both perform with `Array.prototype.find`. */
module Tags {
  import opened Wrappers

  datatype Tag = Tag(name: string, value: string)

  /** Names of the SmartWeave protocol tags the core reads. */
  const ContentType: string := "Content-Type"
  const ContractSrcTxId: string := "Contract-Src"
  const InitState: string := "Init-State"
  const WasmLang: string := "Wasm-Lang"

  /** Is `i` the position of the first tag called `name`? */
  predicate IsFirstWithName(tags: seq<Tag>, name: string, i: int) {
    0 <= i < |tags| && tags[i].name == name &&
    forall j :: 0 <= j < i ==> tags[j].name != name
  }

  lemma FirstWithNameUnique(tags: seq<Tag>, name: string)
    ensures forall i, j :: IsFirstWithName(tags, name, i) && IsFirstWithName(tags, name, j) ==> i == j
  {
  }

  /** The value of the first tag called `name`, or None when no tag has that name. */
  function TagValue(name: string, tags: seq<Tag>): Option<string> {
    if tags == [] then None
    else if tags[0].name == name then Some(tags[0].value)
    else TagValue(name, tags[1..])
  }

  /** The lookup finds nothing exactly when no tag has the name, and otherwise
      yields the value of the first tag with it. */
  lemma {:induction false} TagValueSpec(name: string, tags: seq<Tag>)
    ensures TagValue(name, tags).None? <==> forall i :: 0 <= i < |tags| ==> tags[i].name != name
    ensures forall i :: IsFirstWithName(tags, name, i) ==> TagValue(name, tags) == Some(tags[i].value)
  {
    if tags != [] && tags[0].name != name {
      TagValueSpec(name, tags[1..]);
      forall i | IsFirstWithName(tags, name, i) ensures TagValue(name, tags) == Some(tags[i].value) {
        assert IsFirstWithName(tags[1..], name, i - 1);
      }
      if TagValue(name, tags).None? {
        forall i | 0 <= i < |tags| ensures tags[i].name != name {
          if i > 0 {
            assert tags[i] == tags[1..][i - 1];
          }
        }
      }
    }
  }

  /** Tags placed in front of a tag list do not change a lookup of a name they do not carry. */
  lemma {:induction false} TagValueSkipsPrefix(name: string, prefix: seq<Tag>, tags: seq<Tag>)
    requires forall i :: 0 <= i < |prefix| ==> prefix[i].name != name
    ensures TagValue(name, prefix + tags) == TagValue(name, tags)
  {
    if prefix == [] {
      assert prefix + tags == tags;
    } else {
      assert (prefix + tags)[0] == prefix[0];
      assert (prefix + tags)[1..] == prefix[1..] + tags;
      TagValueSkipsPrefix(name, prefix[1..], tags);
    }
  }
}
