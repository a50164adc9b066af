/** `header_map_t`: values in arrival order under the case-folded name. */
module HeaderMaps {
  import opened Text

  type HeaderMap = map<string, seq<string>>

  datatype Field = Field(name: string, value: string)

  function Values(h: HeaderMap, key: string): seq<string> {
    if key in h then h[key] else []
  }

  function First(h: HeaderMap, key: string): string {
    if Values(h, key) == [] then "" else Values(h, key)[0]
  }

  function GetHeader(h: HeaderMap, name: string): string {
    First(h, Lower(name))
  }

  function AddHeader(h: HeaderMap, name: string, value: string): HeaderMap {
    h[Lower(name) := Values(h, Lower(name)) + [value]]
  }

  function Collect(h: HeaderMap, fs: seq<Field>): HeaderMap
    decreases |fs|
  {
    if fs == [] then h else Collect(AddHeader(h, fs[0].name, fs[0].value), fs[1..])
  }

  /** The values of the fields with that name in any case, in order. */
  function ValuesOf(fs: seq<Field>, key: string): seq<string> {
    if fs == [] then []
    else (if Lower(fs[0].name) == key then [fs[0].value] else []) + ValuesOf(fs[1..], key)
  }

  /** Under each case-folded name the map holds what it held, then the values of the fields with
      that name in arrival order; and it gains no other name. */
  lemma {:induction false} CollectMeaning(h: HeaderMap, fs: seq<Field>, key: string)
    ensures Values(Collect(h, fs), key) == Values(h, key) + ValuesOf(fs, key)
    ensures key in Collect(h, fs) <==> key in h || ValuesOf(fs, key) != []
    decreases |fs|
  {
    if fs == [] {
      assert Values(h, key) + [] == Values(h, key);
    } else {
      var f := fs[0];
      var h' := AddHeader(h, f.name, f.value);
      var one := if Lower(f.name) == key then [f.value] else [];
      CollectMeaning(h', fs[1..], key);
      assert Values(h', key) == Values(h, key) + one;
      Assoc(Values(h, key), one, ValuesOf(fs[1..], key));
    }
  }

  /** Of several fields with a name the first is what `get` answers, and without one the empty text. */
  lemma {:induction false} FirstFieldWins(fs: seq<Field>, name: string, i: nat)
    requires i <= |fs| && forall j :: 0 <= j < i ==> Lower(fs[j].name) != Lower(name)
    ensures i == |fs| ==> GetHeader(Collect(map[], fs), name) == ""
    ensures i < |fs| && Lower(fs[i].name) == Lower(name) ==> GetHeader(Collect(map[], fs), name) == fs[i].value
  {
    CollectMeaning(map[], fs, Lower(name));
    assert Values(map[], Lower(name)) + ValuesOf(fs, Lower(name)) == ValuesOf(fs, Lower(name));
    FirstOfValues(fs, Lower(name), i);
  }

  lemma {:induction false} FirstOfValues(fs: seq<Field>, key: string, i: nat)
    requires i <= |fs| && forall j :: 0 <= j < i ==> Lower(fs[j].name) != key
    ensures i == |fs| ==> ValuesOf(fs, key) == []
    ensures i < |fs| && Lower(fs[i].name) == key ==> ValuesOf(fs, key) != [] && ValuesOf(fs, key)[0] == fs[i].value
    decreases |fs|
  {
    if i > 0 {
      FirstOfValues(fs[1..], key, i - 1);
    }
  }
}
