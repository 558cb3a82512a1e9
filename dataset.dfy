/**
 The naming rule that turns the attribute names of a script descriptor into
 the keys of the element's `dataset` object: an attribute name that starts
 with `data` followed by one character outside `a`..`z` is kept, the `data`
 prefix is dropped and that fifth character is lower-cased (`dataPicId`
 becomes `picId`).  This is the camel-cased form of the `data-*` attribute
 convention of the WHATWG HTML Living Standard, section 3.2.6.6 ("Embedding
 custom non-visible data with the data-* attributes").

 Keys are strings of characters; lower- and upper-casing are ASCII only.
 */
module DataAttributes {

  /** `c` is in the character class `[a-z]`. */
  predicate IsLowerAscii(c: char) { 'a' <= c <= 'z' }

  /** `c` is in the character class `[A-Z]`. */
  predicate IsUpperAscii(c: char) { 'A' <= c <= 'Z' }

  /** ASCII `toLowerCase` of one character. */
  function ToLower(c: char): (r: char)
    ensures !IsUpperAscii(r)
    ensures IsLowerAscii(r) <==> IsLowerAscii(c) || IsUpperAscii(c)
  {
    if IsUpperAscii(c) then (c as int + 32) as char else c
  }

  /** ASCII `toUpperCase` of one character. */
  function ToUpper(c: char): (r: char)
    ensures !IsLowerAscii(r)
    ensures IsUpperAscii(r) <==> IsLowerAscii(c) || IsUpperAscii(c)
  {
    if IsLowerAscii(c) then (c as int - 32) as char else c
  }

  /** Upper-casing undoes lower-casing on every character outside `[a-z]`. */
  lemma UpperOfLower(c: char)
    requires !IsLowerAscii(c)
    ensures ToUpper(ToLower(c)) == c
  {
  }

  /** Lower-casing undoes upper-casing on every character outside `[A-Z]`. */
  lemma LowerOfUpper(c: char)
    requires !IsUpperAscii(c)
    ensures ToLower(ToUpper(c)) == c
  {
  }

  const Prefix: string := "data"

  /**
   `key` matches the anchored pattern `^data[^a-z]`: only keys starting with
   `data` and longer than it match, every `data` followed by an upper-case
   letter matches, and none followed by a lower-case letter does.
   */
  predicate IsDataKey(key: string): (matched: bool)
    ensures matched ==> Prefix <= key && |key| > |Prefix|
    ensures Prefix <= key && |key| > |Prefix| && IsUpperAscii(key[4]) ==> matched
    ensures |key| > |Prefix| && IsLowerAscii(key[4]) ==> !matched
  {
    |key| >= 5 && key[..4] == Prefix && !IsLowerAscii(key[4])
  }

  /**
   A name that can appear in a dataset: non-empty, and not starting with an
   upper-case letter.
   */
  predicate IsDatasetName(name: string)
  {
    |name| >= 1 && !IsUpperAscii(name[0])
  }

  /**
   The dataset key of a matching attribute name: the five-character match
   `data?` is replaced by its last character, lower-cased.
   */
  function DatasetKey(key: string): (name: string)
    requires IsDataKey(key)
    ensures IsDatasetName(name)
    ensures |name| == |key| - 4
    ensures name[1..] == key[5..]
  {
    [ToLower(key[4])] + key[5..]
  }

  /**
   The attribute name a dataset key comes from: `data` followed by the key
   with its first character upper-cased.
   */
  function AttributeKey(name: string): (key: string)
    requires |name| >= 1
    ensures IsDataKey(key)
    ensures |key| == |name| + 4
  {
    Prefix + [ToUpper(name[0])] + name[1..]
  }

  /** Every matching attribute name is recovered from its dataset key. */
  lemma AttributeKeyOfDatasetKey(key: string)
    requires IsDataKey(key)
    ensures AttributeKey(DatasetKey(key)) == key
  {
    UpperOfLower(key[4]);
    assert key == key[..4] + [key[4]] + key[5..];
  }

  /** Every dataset name is the dataset key of its attribute name. */
  lemma DatasetKeyOfAttributeKey(name: string)
    requires IsDatasetName(name)
    ensures DatasetKey(AttributeKey(name)) == name
  {
    var key := AttributeKey(name);
    LowerOfUpper(name[0]);
    assert key[5..] == name[1..];
    assert name == [name[0]] + name[1..];
  }

  /** Two different matching attribute names never share a dataset key. */
  lemma DatasetKeyInjective(k1: string, k2: string)
    requires IsDataKey(k1) && IsDataKey(k2)
    requires DatasetKey(k1) == DatasetKey(k2)
    ensures k1 == k2
  {
    AttributeKeyOfDatasetKey(k1);
    AttributeKeyOfDatasetKey(k2);
  }

  lemma DatasetKeysInjective()
    ensures forall k1, k2 :: IsDataKey(k1) && IsDataKey(k2) && DatasetKey(k1) == DatasetKey(k2) ==> k1 == k2
  {
    forall k1, k2 | IsDataKey(k1) && IsDataKey(k2) && DatasetKey(k1) == DatasetKey(k2)
      ensures k1 == k2
    {
      DatasetKeyInjective(k1, k2);
    }
  }

  /** The names `DatasetKey` produces are exactly the dataset names. */
  lemma DatasetKeyImage(name: string)
    ensures IsDatasetName(name) <==> exists key :: IsDataKey(key) && DatasetKey(key) == name
  {
    if IsDatasetName(name) {
      DatasetKeyOfAttributeKey(name);
      assert IsDataKey(AttributeKey(name));
    }
  }

  /** Names the rule keeps, drops, and what it makes of non-letter separators. */
  lemma DataKeyExamples()
    ensures IsDataKey("dataWidth") && DatasetKey("dataWidth") == "width"
    ensures IsDataKey("dataPicId") && DatasetKey("dataPicId") == "picId"
    ensures IsDataKey("data-x") && DatasetKey("data-x") == "-x"
    ensures IsDataKey("data1") && DatasetKey("data1") == "1"
    ensures !IsDataKey("id") && !IsDataKey("datax") && !IsDataKey("Data-x") && !IsDataKey("data")
  {
    assert "dataWidth"[..4] == Prefix;
    assert "dataPicId"[..4] == Prefix;
    assert "data-x"[..4] == Prefix;
    assert "data1"[..4] == Prefix;
    assert "Data-x"[..4] != Prefix by { assert "Data-x"[0] != Prefix[0]; }
  }

  /**
   The dataset object built from an attribute map: one entry per matching
   attribute name, under its dataset key, holding the attribute's value.
   */
  ghost function Dataset<V>(attributes: map<string, V>): (dataset: map<string, V>)
  {
    DatasetKeysInjective();
    map key | key in attributes && IsDataKey(key) :: DatasetKey(key) := attributes[key]
  }

  /** The matching attribute names of an attribute map. */
  ghost function DataKeys<V>(attributes: map<string, V>): (keys: set<string>)
    ensures keys <= attributes.Keys
  {
    set key | key in attributes && IsDataKey(key)
  }

  /**
   A name is in the dataset exactly when it is a dataset name whose attribute
   name is in the input, and it then holds that attribute's value.
   */
  lemma DatasetLookup<V>(attributes: map<string, V>, name: string)
    ensures name in Dataset(attributes) <==> IsDatasetName(name) && AttributeKey(name) in attributes
    ensures name in Dataset(attributes) ==> Dataset(attributes)[name] == attributes[AttributeKey(name)]
  {
    var d := Dataset(attributes);
    DatasetKeysInjective();
    if name in d {
      var key :| key in attributes && IsDataKey(key) && DatasetKey(key) == name;
      AttributeKeyOfDatasetKey(key);
    }
    if IsDatasetName(name) && AttributeKey(name) in attributes {
      var key := AttributeKey(name);
      DatasetKeyOfAttributeKey(name);
      assert DatasetKey(key) in d && d[DatasetKey(key)] == attributes[key];
    }
  }

  /**
   Every key of the dataset comes from a matching attribute name of the input
   and holds that attribute's value: nothing is passed through unchanged.
   */
  lemma DatasetOnlyFromDataKeys<V>(attributes: map<string, V>, name: string)
    requires name in Dataset(attributes)
    ensures AttributeKey(name) in attributes && IsDataKey(AttributeKey(name))
    ensures DatasetKey(AttributeKey(name)) == name
    ensures Dataset(attributes)[name] == attributes[AttributeKey(name)]
  {
    DatasetLookup(attributes, name);
    DatasetKeyOfAttributeKey(name);
  }

  /** Every matching attribute lands under its dataset key with its value. */
  lemma DatasetHasDataKey<V>(attributes: map<string, V>, key: string)
    requires key in attributes && IsDataKey(key)
    ensures DatasetKey(key) in Dataset(attributes)
    ensures Dataset(attributes)[DatasetKey(key)] == attributes[key]
  {
    AttributeKeyOfDatasetKey(key);
    DatasetLookup(attributes, DatasetKey(key));
  }

  /**
   Adding one attribute: a matching one sets its dataset key to its value,
   any other leaves the dataset as it was.
   */
  lemma DatasetAdd<V>(attributes: map<string, V>, key: string, value: V)
    requires key !in attributes
    ensures Dataset(attributes[key := value]) ==
      if IsDataKey(key) then Dataset(attributes)[DatasetKey(key) := value] else Dataset(attributes)
  {
    var a := attributes[key := value];
    var d := if IsDataKey(key) then Dataset(attributes)[DatasetKey(key) := value] else Dataset(attributes);
    forall name
      ensures name in Dataset(a) <==> name in d
      ensures name in d ==> Dataset(a)[name] == d[name]
    {
      DatasetLookup(a, name);
      DatasetLookup(attributes, name);
      if IsDataKey(key) {
        AttributeKeyOfDatasetKey(key);
        if IsDatasetName(name) {
          DatasetKeyOfAttributeKey(name);
        }
      }
    }
  }

  /**
   The attributes visited once one more key is taken out of the ones still to
   visit.
   */
  lemma VisitOneMore<V>(attributes: map<string, V>, remaining: set<string>, key: string)
    requires key in remaining && remaining <= attributes.Keys
    ensures key !in attributes - remaining
    ensures attributes - (remaining - {key}) == (attributes - remaining)[key := attributes[key]]
  {
  }

  /** An attribute whose name does not match contributes nothing. */
  lemma NonDataKeyDropped<V>(attributes: map<string, V>, key: string)
    requires !IsDataKey(key)
    ensures Dataset(attributes) == Dataset(attributes - {key})
  {
    var a, b := Dataset(attributes), Dataset(attributes - {key});
    forall name
      ensures name in a <==> name in b
      ensures name in a ==> a[name] == b[name]
    {
      DatasetLookup(attributes, name);
      DatasetLookup(attributes - {key}, name);
      if IsDatasetName(name) {
        assert IsDataKey(AttributeKey(name));
      }
    }
  }

  /** The dataset keys of a set of matching names are as many as the names. */
  lemma {:induction false} DatasetKeysCount(keys: set<string>)
    requires forall key :: key in keys ==> IsDataKey(key)
    ensures |set key | key in keys :: DatasetKey(key)| == |keys|
    decreases |keys|
  {
    if keys != {} {
      var x :| x in keys;
      var rest := keys - {x};
      DatasetKeysCount(rest);
      var image, restImage := set key | key in keys :: DatasetKey(key), set key | key in rest :: DatasetKey(key);
      assert image == restImage + {DatasetKey(x)};
      if DatasetKey(x) in restImage {
        var y :| y in rest && DatasetKey(y) == DatasetKey(x);
        DatasetKeyInjective(x, y);
      }
    }
  }

  /**
   The dataset has one entry per matching attribute, so never more entries
   than the attribute map.
   */
  lemma DatasetSize<V>(attributes: map<string, V>)
    ensures |Dataset(attributes)| == |DataKeys(attributes)| <= |attributes|
  {
    var keys := DataKeys(attributes);
    assert Dataset(attributes).Keys == set key | key in keys :: DatasetKey(key);
    DatasetKeysCount(keys);
    assert keys <= attributes.Keys;
    SubsetSize(keys, attributes.Keys);
  }

  lemma {:induction false} SubsetSize<T>(a: set<T>, b: set<T>)
    requires a <= b
    ensures |a| <= |b|
    decreases |a|
  {
    if a != {} {
      var x :| x in a;
      SubsetSize(a - {x}, b - {x});
    }
  }

  /** Attribute values used in the example below: a number or a string. */
  datatype JsValue = Num(n: int) | Str(s: string)

  /**
   `{ dataWidth: 100, dataPicId: 'xn3K8s', id: 'foo' }` gives
   `{ width: 100, picId: 'xn3K8s' }`.
   */
  lemma DatasetExample()
    ensures Dataset(map["dataWidth" := Num(100), "dataPicId" := Str("xn3K8s"), "id" := Str("foo")])
         == map["width" := Num(100), "picId" := Str("xn3K8s")]
  {
    var attributes := map["dataWidth" := Num(100), "dataPicId" := Str("xn3K8s"), "id" := Str("foo")];
    var expected := map["width" := Num(100), "picId" := Str("xn3K8s")];
    DataKeyExamples();
    var d := Dataset(attributes);
    DatasetHasDataKey(attributes, "dataWidth");
    DatasetHasDataKey(attributes, "dataPicId");
    forall name | name in d
      ensures name in expected
    {
      DatasetOnlyFromDataKeys(attributes, name);
      var key := AttributeKey(name);
      assert key == "dataWidth" || key == "dataPicId";
    }
  }
}
