/**
 * The data helpers of the company service (EmpresasService): CNPJ
 * normalisation, the sanitisation of the provider's CNPJ record, the `pick`
 * and `normalizeString` readers, and the mapping of that record onto a
 * company.
 */
module EmpresaData {
  import opened Json
  import Text

  // ---------------------------------------------------------------- onlyDigits

  /** `value.replace(/\D/g, '')`: the ASCII digits of the text, in order. */
  function OnlyDigits(s: string): (r: string)
    ensures |r| <= |s|
  {
    if |s| == 0 then ""
    else (if Text.IsDigit(s[0]) then [s[0]] else "") + OnlyDigits(s[1..])
  }

  /** Only digits come out, and every digit of the text comes out, in order across any split. */
  lemma {:induction false} OnlyDigitsSpec(a: string, b: string)
    ensures forall i :: 0 <= i < |OnlyDigits(a)| ==> Text.IsDigit(OnlyDigits(a)[i])
    ensures OnlyDigits(a + b) == OnlyDigits(a) + OnlyDigits(b)
    ensures (forall i :: 0 <= i < |a| ==> Text.IsDigit(a[i])) ==> OnlyDigits(a) == a
    decreases |a|
  {
    if |a| > 0 {
      assert (a + b)[1..] == a[1..] + b;
      OnlyDigitsSpec(a[1..], b);
      if forall i :: 0 <= i < |a| ==> Text.IsDigit(a[i]) {
        assert forall i :: 0 <= i < |a[1..]| ==> Text.IsDigit(a[1..][i]) by {
          forall i | 0 <= i < |a[1..]| ensures Text.IsDigit(a[1..][i]) {
            assert a[1..][i] == a[i + 1];
          }
        }
      }
    } else {
      assert a + b == b;
    }
  }

  /** Normalising twice changes nothing more. */
  lemma OnlyDigitsIdempotent(s: string)
    ensures OnlyDigits(OnlyDigits(s)) == OnlyDigits(s)
  {
    OnlyDigitsSpec(s, "");
    OnlyDigitsSpec(OnlyDigits(s), "");
  }

  // ---------------------------------------------------------------- sanitizeProviderData

  /** A key Mongo would treat as an operator or a path: it starts with '$' or contains '.'. */
  predicate UnsafeKey(k: string) {
    Text.StartsWith(k, "$") || Text.Contains(k, ".")
  }

  /** The sanitised value: unsafe keys dropped at every depth, arrays kept element by element. */
  function Sanitized(v: Value): Value
    decreases v, 2
  {
    match v
    case JArr(items) => JArr(SanitizedItems(items))
    case JObj(fields) => JObj(SanitizedFields(fields))
    case _ => v
  }

  function SanitizedItems(items: seq<Value>): (r: seq<Value>)
    decreases items, 1
  {
    if |items| == 0 then [] else [Sanitized(items[0])] + SanitizedItems(items[1..])
  }

  function SanitizedFields(fields: seq<(string, Value)>): seq<(string, Value)>
    decreases fields, 1
  {
    if |fields| == 0 then []
    else SanitizedEntry(fields[0]) + SanitizedFields(fields[1..])
  }

  /** What one entry contributes: nothing for an unsafe key, else the key with its sanitised value. */
  function SanitizedEntry(f: (string, Value)): seq<(string, Value)>
    decreases f, 0
  {
    if UnsafeKey(f.0) then [] else [(f.0, Sanitized(f.1))]
  }

  /** No object at any depth has an unsafe key. */
  predicate Clean(v: Value)
    decreases v, 1
  {
    match v
    case JArr(items) => forall k :: 0 <= k < |items| ==> Clean(items[k])
    case JObj(fields) => forall k :: 0 <= k < |fields| ==> CleanEntry(fields[k])
    case _ => true
  }

  predicate CleanEntry(f: (string, Value))
    decreases f, 0
  {
    !UnsafeKey(f.0) && Clean(f.1)
  }

  /** Array length and order are kept, element by element. */
  lemma {:induction false} SanitizedItemsPointwise(items: seq<Value>)
    ensures |SanitizedItems(items)| == |items|
    ensures forall k :: 0 <= k < |items| ==> SanitizedItems(items)[k] == Sanitized(items[k])
    decreases |items|
  {
    if |items| > 0 {
      SanitizedItemsPointwise(items[1..]);
    }
  }

  /**
   * The sanitised entries of an object are exactly its entries with safe keys, in order,
   * each with its value sanitised.
   */
  lemma {:induction false} SanitizedFieldsKeepSafe(fields: seq<(string, Value)>)
    ensures forall f :: f in fields && !UnsafeKey(f.0) ==> (f.0, Sanitized(f.1)) in SanitizedFields(fields)
    ensures forall g :: g in SanitizedFields(fields) ==>
      !UnsafeKey(g.0) && exists f :: f in fields && f.0 == g.0 && g.1 == Sanitized(f.1)
    decreases |fields|
  {
    if |fields| > 0 {
      SanitizedFieldsKeepSafe(fields[1..]);
      forall f | f in fields && !UnsafeKey(f.0)
        ensures (f.0, Sanitized(f.1)) in SanitizedFields(fields)
      {
        if f != fields[0] {
          assert f in fields[1..];
        }
      }
      forall g | g in SanitizedFields(fields)
        ensures !UnsafeKey(g.0) && exists f :: f in fields && f.0 == g.0 && g.1 == Sanitized(f.1)
      {
        if g in SanitizedEntry(fields[0]) {
          assert fields[0] in fields;
        } else {
          assert g in SanitizedFields(fields[1..]);
          var f :| f in fields[1..] && f.0 == g.0 && g.1 == Sanitized(f.1);
          assert f in fields;
        }
      }
    }
  }

  /** The result of sanitising is clean. */
  lemma {:induction false} SanitizedIsClean(v: Value)
    ensures Clean(Sanitized(v))
    decreases v, 2
  {
    match v
    case JArr(items) =>
      SanitizedItemsClean(items);
    case JObj(fields) =>
      SanitizedFieldsClean(fields);
    case _ =>
  }

  lemma {:induction false} SanitizedItemsClean(items: seq<Value>)
    ensures forall k :: 0 <= k < |SanitizedItems(items)| ==> Clean(SanitizedItems(items)[k])
    decreases items, 1
  {
    if |items| > 0 {
      SanitizedIsClean(items[0]);
      SanitizedItemsClean(items[1..]);
      var r := SanitizedItems(items);
      assert r == [Sanitized(items[0])] + SanitizedItems(items[1..]);
      forall k | 0 <= k < |r| ensures Clean(r[k]) {
        if k > 0 {
          assert r[k] == SanitizedItems(items[1..])[k - 1];
        }
      }
    }
  }

  lemma {:induction false} SanitizedFieldsClean(fields: seq<(string, Value)>)
    ensures forall k :: 0 <= k < |SanitizedFields(fields)| ==> CleanEntry(SanitizedFields(fields)[k])
    decreases fields, 1
  {
    if |fields| > 0 {
      SanitizedEntryClean(fields[0]);
      SanitizedFieldsClean(fields[1..]);
      var h := SanitizedEntry(fields[0]);
      var t := SanitizedFields(fields[1..]);
      forall k | 0 <= k < |h + t| ensures CleanEntry((h + t)[k]) {
        if k >= |h| {
          assert (h + t)[k] == t[k - |h|];
        }
      }
    }
  }

  lemma {:induction false} SanitizedEntryClean(f: (string, Value))
    ensures forall k :: 0 <= k < |SanitizedEntry(f)| ==> CleanEntry(SanitizedEntry(f)[k])
    decreases f, 0
  {
    if !UnsafeKey(f.0) {
      SanitizedIsClean(f.1);
    }
  }

  /** A clean value is left as it is. */
  lemma {:induction false} CleanIsFixed(v: Value)
    requires Clean(v)
    ensures Sanitized(v) == v
    decreases v, 2
  {
    match v
    case JArr(items) =>
      CleanItemsFixed(items);
    case JObj(fields) =>
      CleanFieldsFixed(fields);
    case _ =>
  }

  lemma {:induction false} CleanItemsFixed(items: seq<Value>)
    requires forall k :: 0 <= k < |items| ==> Clean(items[k])
    ensures SanitizedItems(items) == items
    decreases items, 1
  {
    if |items| > 0 {
      CleanIsFixed(items[0]);
      assert forall k :: 0 <= k < |items[1..]| ==> items[1..][k] == items[k + 1];
      CleanItemsFixed(items[1..]);
      assert items == [items[0]] + items[1..];
    }
  }

  lemma {:induction false} CleanFieldsFixed(fields: seq<(string, Value)>)
    requires forall k :: 0 <= k < |fields| ==> CleanEntry(fields[k])
    ensures SanitizedFields(fields) == fields
    decreases fields, 1
  {
    if |fields| > 0 {
      CleanEntryFixed(fields[0]);
      assert forall k :: 0 <= k < |fields[1..]| ==> fields[1..][k] == fields[k + 1];
      CleanFieldsFixed(fields[1..]);
      assert fields == [fields[0]] + fields[1..];
    }
  }

  lemma {:induction false} CleanEntryFixed(f: (string, Value))
    requires CleanEntry(f)
    ensures SanitizedEntry(f) == [f]
    decreases f, 0
  {
    CleanIsFixed(f.1);
  }

  /** Sanitising is idempotent. */
  lemma SanitizeIdempotent(v: Value)
    ensures Sanitized(Sanitized(v)) == Sanitized(v)
  {
    SanitizedIsClean(v);
    CleanIsFixed(Sanitized(v));
  }

  /** `sanitizeProviderData`: arrays element by element, objects entry by entry into a fresh object. */
  method SanitizeProviderData(v: Value) returns (r: Value)
    ensures r == Sanitized(v)
    decreases v
  {
    if v.JArr? {
      var out: seq<Value> := [];
      var i := 0;
      SanitizedItemsPointwise(v.items);
      while i < |v.items|
        invariant 0 <= i <= |v.items|
        invariant |out| == i
        invariant forall k :: 0 <= k < i ==> out[k] == Sanitized(v.items[k])
      {
        var item := SanitizeProviderData(v.items[i]);
        out := out + [item];
        i := i + 1;
      }
      r := JArr(out);
    } else if v.JObj? {
      var out: seq<(string, Value)> := [];
      var i := 0;
      while i < |v.fields|
        invariant 0 <= i <= |v.fields|
        invariant out + SanitizedFields(v.fields[i..]) == SanitizedFields(v.fields)
      {
        var (key, val) := v.fields[i];
        assert v.fields[i..][1..] == v.fields[i + 1..];
        if !UnsafeKey(key) {
          var clean := SanitizeProviderData(val);
          out := out + [(key, clean)];
        }
        i := i + 1;
      }
      r := JObj(out);
    } else {
      r := v;
    }
  }

  // ---------------------------------------------------------------- pick and normalizeString

  /** A value `pick` accepts: not undefined, not null, not ''. */
  predicate Usable(v: Value) {
    !Nullish(v) && v != JStr("")
  }

  /** The value `pick` returns: the first usable value among the keys, else undefined. */
  function PickFirst(obj: Value, keys: seq<string>): Value {
    if |keys| == 0 then JUndefined
    else if Usable(Get(obj, keys[0])) then Get(obj, keys[0])
    else PickFirst(obj, keys[1..])
  }

  /**
   * The picked value is the value of the first key whose value is usable; undefined is
   * returned exactly when no key has a usable value.
   */
  lemma {:induction false} PickFirstSpec(obj: Value, keys: seq<string>)
    ensures var r := PickFirst(obj, keys);
      && (r == JUndefined <==> forall k :: 0 <= k < |keys| ==> !Usable(Get(obj, keys[k])))
      && (r != JUndefined ==> exists k :: 0 <= k < |keys| && r == Get(obj, keys[k])
                                && Usable(r) && forall j :: 0 <= j < k ==> !Usable(Get(obj, keys[j])))
    decreases |keys|
  {
    if |keys| > 0 && !Usable(Get(obj, keys[0])) {
      PickFirstSpec(obj, keys[1..]);
      var r := PickFirst(obj, keys);
      if r != JUndefined {
        var k :| 0 <= k < |keys| - 1 && r == Get(obj, keys[1..][k])
                 && forall j :: 0 <= j < k ==> !Usable(Get(obj, keys[1..][j]));
        assert r == Get(obj, keys[k + 1]);
        forall j | 0 <= j < k + 1 ensures !Usable(Get(obj, keys[j])) {
          if j > 0 {
            assert keys[j] == keys[1..][j - 1];
          }
        }
      } else {
        forall k | 0 <= k < |keys| ensures !Usable(Get(obj, keys[k])) {
          if k > 0 {
            assert keys[k] == keys[1..][k - 1];
          }
        }
      }
    }
  }

  /** `pick`: the loop over the keys with an early return. */
  method Pick(obj: Value, keys: seq<string>) returns (r: Value)
    ensures r == PickFirst(obj, keys)
  {
    var i := 0;
    while i < |keys|
      invariant 0 <= i <= |keys|
      invariant PickFirst(obj, keys) == PickFirst(obj, keys[i..])
    {
      assert keys[i..][1..] == keys[i + 1..];
      var value := Get(obj, keys[i]);
      if Usable(value) {
        return value;
      }
      i := i + 1;
    }
    return JUndefined;
  }

  /** The six name fields `normalizeString` reads from an object, in priority order. */
  function NameCandidates(v: Value): (c: seq<Value>)
    ensures |c| == 6
  {
    [Get(v, "descricao"), Get(v, "nome"), Get(v, "nome_municipio"), Get(v, "nomeMunicipio"),
     Get(v, "nome_pais"), Get(v, "nomePais")]
  }

  /** `normalizeString`: a string as it is, an object's first present name field, else undefined. */
  function NormalizeString(v: Value): Value {
    if v.JStr? then v
    else if Truthy(v) && IsObjectLike(v) then
      Coalesce(Get(v, "descricao"),
      Coalesce(Get(v, "nome"),
      Coalesce(Get(v, "nome_municipio"),
      Coalesce(Get(v, "nomeMunicipio"),
      Coalesce(Get(v, "nome_pais"),
      Get(v, "nomePais"))))))
    else JUndefined
  }

  /**
   * A string is returned unchanged; for an object the result is its first present name
   * field (the last one when none is present); anything else gives undefined.
   */
  lemma NormalizeStringSpec(v: Value)
    ensures v.JStr? ==> NormalizeString(v) == v
    ensures !v.JStr? && !IsObjectLike(v) ==> NormalizeString(v) == JUndefined
    ensures IsObjectLike(v) ==>
      var c := NameCandidates(v);
      var r := NormalizeString(v);
      && (forall k :: 0 <= k < 6 && !Nullish(c[k]) && (forall j :: 0 <= j < k ==> Nullish(c[j])) ==> r == c[k])
      && ((forall k :: 0 <= k < 6 ==> Nullish(c[k])) ==> r == c[5])
  {
    if IsObjectLike(v) {
      var c := NameCandidates(v);
      var r := NormalizeString(v);
      if !(forall k :: 0 <= k < 6 ==> Nullish(c[k])) {
        var k :| 0 <= k < 6 && !Nullish(c[k]);
        assert r == c[0] || r == c[1] || r == c[2] || r == c[3] || r == c[4] || r == c[5];
      } else {
        assert Nullish(c[0]) && Nullish(c[1]) && Nullish(c[2]) && Nullish(c[3]) && Nullish(c[4]);
      }
    }
  }

  // ---------------------------------------------------------------- trimProviderData

  /** An object's entries: each key paired with the value at the same position. */
  function Pairs(keys: seq<string>, vs: seq<Value>): (r: seq<(string, Value)>)
    requires |keys| == |vs|
    ensures |r| == |keys| && forall k :: 0 <= k < |r| ==> r[k] == (keys[k], vs[k])
  {
    seq(|keys|, k requires 0 <= k < |keys| => (keys[k], vs[k]))
  }

  /** The address `trimProviderData` starts from: endereco, else estabelecimento.endereco. */
  function KeptAddressSource(data: Value): Value {
    Coalesce(Get(data, "endereco"), Coalesce(Get(Get(data, "estabelecimento"), "endereco"), JUndefined))
  }

  /** The properties of `data` named by `keys`, in order. */
  function Properties(data: Value, keys: seq<string>): (vs: seq<Value>)
    ensures |vs| == |keys| && forall k :: 0 <= k < |vs| ==> vs[k] == Get(data, keys[k])
  {
    seq(|keys|, k requires 0 <= k < |keys| => Get(data, keys[k]))
  }

  /**
   * The values kept by `trimProviderData`, in the order of TrimmedKeys: each the property of
   * the same name, except razao_social, which falls back to nome_razao_social, and endereco,
   * which is the trimmed address of endereco or else estabelecimento.endereco.
   */
  function TrimmedValues(data: Value): (vs: seq<Value>)
    ensures |vs| == 16
  {
    Properties(data, TrimmedKeys())
      [1 := Coalesce(Get(data, "razao_social"), Get(data, "nome_razao_social"))]
      [11 := TrimAddress(KeptAddressSource(data))]
  }

  /** `trimProviderData`: the record kept as providerData, with the address and municipality trimmed too. */
  function TrimProviderData(data: Value): Value {
    JObj(Pairs(TrimmedKeys(), TrimmedValues(data)))
  }

  /** The trimmed address: undefined unless the address is truthy; the municipality likewise. */
  function TrimAddress(endereco: Value): (r: Value)
    ensures r != JUndefined <==> Truthy(endereco)
  {
    var municipio := Get(endereco, "municipio");
    if Truthy(endereco) then
      JObj([
        ("tipo_logradouro", Get(endereco, "tipo_logradouro")),
        ("logradouro", Get(endereco, "logradouro")),
        ("numero", Get(endereco, "numero")),
        ("complemento", Get(endereco, "complemento")),
        ("bairro", Get(endereco, "bairro")),
        ("cep", Get(endereco, "cep")),
        ("uf", Get(endereco, "uf")),
        ("municipio",
          if Truthy(municipio) then
            JObj([("codigo_ibge", Get(municipio, "codigo_ibge")), ("descricao", Get(municipio, "descricao"))])
          else JUndefined)])
    else JUndefined
  }

  /** The keys of the trimmed record, in order. */
  function TrimmedKeys(): seq<string> {
    ["cnpj", "razao_social", "nome_fantasia", "data_inicio_atividade", "matriz", "natureza_juridica",
     "capital_social", "porte", "situacao_cadastral", "atividade_principal", "atividades_secundarias",
     "endereco", "telefones", "email", "simples", "simei"]
  }

  /** The trimmed record always has the same sixteen keys, in this order. */
  lemma TrimProviderDataKeys(data: Value)
    ensures var t := TrimProviderData(data);
      |t.fields| == 16 && forall k :: 0 <= k < 16 ==> t.fields[k].0 == TrimmedKeys()[k]
  {
  }

  /**
   * The identity fields are copied, razao_social falls back to nome_razao_social, and the
   * address is kept only when the record (or its establishment) has a truthy one.
   */
  lemma TrimProviderDataValues(data: Value)
    ensures var t := TrimProviderData(data).fields;
      |t| == 16
      && t[0].1 == Get(data, "cnpj")
      && t[1].1 == Coalesce(Get(data, "razao_social"), Get(data, "nome_razao_social"))
      && t[11].1 == TrimAddress(Coalesce(Get(data, "endereco"), Get(Get(data, "estabelecimento"), "endereco")))
      && (t[11].1 != JUndefined <==>
            Truthy(Coalesce(Get(data, "endereco"), Get(Get(data, "estabelecimento"), "endereco"))))
  {
    var e1 := Get(data, "endereco");
    var e2 := Get(Get(data, "estabelecimento"), "endereco");
    var t := TrimProviderData(data).fields;
    assert t[11].1 == TrimAddress(Coalesce(e1, Coalesce(e2, JUndefined)));
    assert Truthy(Coalesce(e1, Coalesce(e2, JUndefined))) == Truthy(Coalesce(e1, e2));
    if !Truthy(Coalesce(e1, e2)) {
      assert TrimAddress(Coalesce(e1, e2)) == JUndefined;
    } else {
      assert Coalesce(e1, Coalesce(e2, JUndefined)) == Coalesce(e1, e2);
    }
  }

  /** A key without '.' contains no '.'. */
  lemma {:induction false} DotFree(k: string)
    requires '.' !in k
    ensures !Text.Contains(k, ".")
    decreases |k|
  {
    if |k| > 0 {
      DotFree(k[1..]);
      assert k[..1] == [k[0]];
    }
  }

  /** A non-empty key that neither starts with '$' nor holds a '.' is safe. */
  lemma SafeKey(k: string)
    requires |k| > 0 && k[0] != '$' && '.' !in k
    ensures !UnsafeKey(k)
  {
    DotFree(k);
    assert k[..1] == [k[0]];
  }

  /** A property of a clean value is clean. */
  lemma GetClean(v: Value, key: string)
    requires Clean(v)
    ensures Clean(Get(v, key))
  {
    if v.JObj? && Get(v, key) != JUndefined {
      var i :| 0 <= i < |v.fields| && v.fields[i] == (key, Get(v, key));
      assert CleanEntry(v.fields[i]);
    }
  }

  /** The keys of a trimmed municipality, in order. */
  function MunicipioKeys(): seq<string> {
    ["codigo_ibge", "descricao"]
  }

  lemma MunicipioKeysSafe()
    ensures forall k :: 0 <= k < 2 ==> !UnsafeKey(MunicipioKeys()[k])
  {
    forall k | 0 <= k < 2
      ensures !UnsafeKey(MunicipioKeys()[k])
    {
      SafeKey(MunicipioKeys()[k]);
    }
  }

  /** The shape of a trimmed municipality, with clean values, is clean. */
  lemma CleanMunicipioShape(a: Value, b: Value)
    requires Clean(a) && Clean(b)
    ensures Clean(JObj([("codigo_ibge", a), ("descricao", b)]))
  {
    var fs := [("codigo_ibge", a), ("descricao", b)];
    MunicipioKeysSafe();
    assert forall k :: 0 <= k < 2 ==> fs[k].0 == MunicipioKeys()[k] && Clean(fs[k].1);
  }

  /** The keys of a trimmed address, in order. */
  function AddressKeys(): seq<string> {
    ["tipo_logradouro", "logradouro", "numero", "complemento", "bairro", "cep", "uf", "municipio"]
  }

  lemma AddressKeysSafe()
    ensures forall k :: 0 <= k < 8 ==> !UnsafeKey(AddressKeys()[k])
  {
    forall k | 0 <= k < 8
      ensures !UnsafeKey(AddressKeys()[k])
    {
      SafeKey(AddressKeys()[k]);
    }
  }

  /** The shape of a trimmed address, with clean values, is clean. */
  lemma CleanAddressShape(a: Value, b: Value, c: Value, d: Value, e: Value, f: Value, g: Value, m: Value)
    requires Clean(a) && Clean(b) && Clean(c) && Clean(d) && Clean(e) && Clean(f) && Clean(g) && Clean(m)
    ensures Clean(JObj([("tipo_logradouro", a), ("logradouro", b), ("numero", c), ("complemento", d),
                        ("bairro", e), ("cep", f), ("uf", g), ("municipio", m)]))
  {
    var fs := [("tipo_logradouro", a), ("logradouro", b), ("numero", c), ("complemento", d),
               ("bairro", e), ("cep", f), ("uf", g), ("municipio", m)];
    AddressKeysSafe();
    assert forall k :: 0 <= k < 8 ==> fs[k].0 == AddressKeys()[k] && Clean(fs[k].1);
  }

  /** The trimmed address of a clean value is clean. */
  lemma TrimAddressClean(e: Value)
    requires Clean(e)
    ensures Clean(TrimAddress(e))
  {
    if Truthy(e) {
      var m := Get(e, "municipio");
      var tm := if Truthy(m) then JObj([("codigo_ibge", Get(m, "codigo_ibge")), ("descricao", Get(m, "descricao"))])
                else JUndefined;
      GetClean(e, "municipio");
      if Truthy(m) {
        GetClean(m, "codigo_ibge");
        GetClean(m, "descricao");
        CleanMunicipioShape(Get(m, "codigo_ibge"), Get(m, "descricao"));
      }
      GetClean(e, "tipo_logradouro"); GetClean(e, "logradouro"); GetClean(e, "numero");
      GetClean(e, "complemento"); GetClean(e, "bairro"); GetClean(e, "cep"); GetClean(e, "uf");
      CleanAddressShape(Get(e, "tipo_logradouro"), Get(e, "logradouro"), Get(e, "numero"), Get(e, "complemento"),
                        Get(e, "bairro"), Get(e, "cep"), Get(e, "uf"), tm);
    }
  }

  /** The sixteen kept keys are safe. */
  lemma TrimmedKeysSafe()
    ensures forall k :: 0 <= k < 16 ==> !UnsafeKey(TrimmedKeys()[k])
  {
    forall k | 0 <= k < 16
      ensures !UnsafeKey(TrimmedKeys()[k])
    {
      SafeKey(TrimmedKeys()[k]);
    }
  }


  /** Every property of a clean value is clean. */
  lemma PropertiesClean(data: Value, keys: seq<string>)
    requires Clean(data)
    ensures forall k :: 0 <= k < |keys| ==> Clean(Get(data, keys[k]))
  {
    forall k | 0 <= k < |keys|
      ensures Clean(Get(data, keys[k]))
    {
      GetClean(data, keys[k]);
    }
  }

  lemma RazaoSocialClean(data: Value)
    requires Clean(data)
    ensures Clean(Coalesce(Get(data, "razao_social"), Get(data, "nome_razao_social")))
  {
    GetClean(data, "razao_social");
    GetClean(data, "nome_razao_social");
  }

  lemma KeptAddressClean(data: Value)
    requires Clean(data)
    ensures Clean(TrimAddress(KeptAddressSource(data)))
  {
    GetClean(data, "estabelecimento");
    GetClean(data, "endereco");
    GetClean(Get(data, "estabelecimento"), "endereco");
    TrimAddressClean(KeptAddressSource(data));
  }

  /** The values kept from a clean value are clean. */
  lemma TrimmedValuesClean(data: Value)
    requires Clean(data)
    ensures forall k :: 0 <= k < 16 ==> Clean(TrimmedValues(data)[k])
  {
    PropertiesClean(data, TrimmedKeys());
    RazaoSocialClean(data);
    KeptAddressClean(data);
  }

  /** The record kept from a clean value is clean. */
  lemma TrimProviderDataClean(data: Value)
    requires Clean(data)
    ensures Clean(TrimProviderData(data))
  {
    TrimmedKeysSafe();
    TrimmedValuesClean(data);
  }

  // ---------------------------------------------------------------- mapProviderData

  datatype Address = Address(
    logradouro: Value, numero: Value, complemento: Value, bairro: Value, codigoMunicipio: Value,
    cidade: Value, uf: Value, codigoPais: Value, pais: Value, cep: Value)

  /** The company fields `mapProviderData` produces. */
  datatype Company = Company(
    cnpj: string, razaoSocial: Value, nomeFantasia: Value, inscricaoMunicipal: Value,
    email: Value, fone: Value, endereco: Address, providerData: Value)

  /** Where the address is read from: the first present of five places, else the whole record. */
  function AddressSource(safe: Value): Value {
    Coalesce(Get(safe, "endereco"),
    Coalesce(Get(safe, "endereco_empresa"),
    Coalesce(Get(Get(safe, "estabelecimento"), "endereco"),
    Coalesce(Get(safe, "estabelecimento"),
    Coalesce(Get(safe, "localizacao"),
    safe)))))
  }

  function MapProviderData(cnpj: string, data: Value): Company {
    var safe := Sanitized(data);
    var src := AddressSource(safe);
    Company(
      cnpj,
      PickFirst(safe, ["nome_razao_social", "razao_social", "razaoSocial", "nomeRazaoSocial"]),
      PickFirst(safe, ["nome_fantasia", "nomeFantasia"]),
      PickFirst(safe, ["inscricao_municipal", "inscricaoMunicipal", "im"]),
      PickFirst(safe, ["email", "email_contato", "emailContato"]),
      PickFirst(safe, ["fone", "telefone", "telefone1", "telefone_principal"]),
      Address(
        PickFirst(src, ["logradouro", "logradouro_endereco", "logradouroEndereco"]),
        PickFirst(src, ["numero", "numero_endereco", "numeroEndereco"]),
        PickFirst(src, ["complemento"]),
        PickFirst(src, ["bairro"]),
        PickFirst(src, ["codigo_municipio", "codigoMunicipio", "municipio_codigo", "codigo_ibge"]),
        NormalizeString(PickFirst(src, ["cidade", "municipio", "nome_municipio"])),
        PickFirst(src, ["uf", "estado", "sigla_uf", "siglaEstado"]),
        PickFirst(src, ["codigo_pais", "codigoPais", "pais_codigo"]),
        NormalizeString(PickFirst(src, ["pais", "nome_pais"])),
        PickFirst(src, ["cep"])),
      TrimProviderData(safe))
  }

  /**
   * The mapped company carries the normalised CNPJ it was given, reads everything from the
   * sanitised record (so sanitising the input first changes nothing), and its stored
   * providerData has no unsafe key at any depth, whatever the input.
   */
  lemma MapProviderDataSpec(cnpj: string, data: Value)
    ensures MapProviderData(cnpj, data).cnpj == cnpj
    ensures MapProviderData(cnpj, Sanitized(data)) == MapProviderData(cnpj, data)
    ensures Clean(MapProviderData(cnpj, data).providerData)
  {
    SanitizeIdempotent(data);
    SanitizedIsClean(data);
    TrimProviderDataClean(Sanitized(data));
  }

  /** The five address sources, in priority order. */
  function AddressCandidates(safe: Value): (c: seq<Value>)
    ensures |c| == 5
  {
    [Get(safe, "endereco"), Get(safe, "endereco_empresa"), Get(Get(safe, "estabelecimento"), "endereco"),
     Get(safe, "estabelecimento"), Get(safe, "localizacao")]
  }

  /**
   * The address is read from the first of endereco, endereco_empresa, estabelecimento.endereco,
   * estabelecimento and localizacao that is neither null nor undefined, and from the whole
   * record when all five are absent.
   */
  lemma AddressSourcePriority(safe: Value)
    ensures var c := AddressCandidates(safe);
      var r := AddressSource(safe);
      && (forall k :: 0 <= k < 5 && !Nullish(c[k]) && (forall j :: 0 <= j < k ==> Nullish(c[j])) ==> r == c[k])
      && ((forall k :: 0 <= k < 5 ==> Nullish(c[k])) ==> r == safe)
  {
    var c := AddressCandidates(safe);
    var r := AddressSource(safe);
    if !(forall k :: 0 <= k < 5 ==> Nullish(c[k])) {
      var k :| 0 <= k < 5 && !Nullish(c[k]);
      assert r == c[0] || r == c[1] || r == c[2] || r == c[3] || r == c[4];
    } else {
      assert Nullish(c[0]) && Nullish(c[1]) && Nullish(c[2]) && Nullish(c[3]) && Nullish(c[4]);
    }
  }
}
