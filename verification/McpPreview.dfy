/** Bounded previews of JSON values: strings are capped until the encoded value fits. */
module McpPreview {
  import opened Options
  import opened Text
  import opened Json

  function Min(a: nat, b: nat): nat {
    if a <= b then a else b
  }

  /** _cap_json_strings; keys stay as they are. */
  function Cap(j: Json, n: nat): Json
    decreases j, 1
  {
    match j
    case JStr(s) => JStr(s[..Min(n, |s|)])
    case JArr(items) => JArr(CapItems(items, n))
    case JObj(fields) => JObj(CapFields(fields, n))
    case _ => j
  }

  function CapItems(items: seq<Json>, n: nat): (r: seq<Json>)
    ensures |r| == |items|
    decreases items, 0
  {
    if items == [] then [] else [Cap(items[0], n)] + CapItems(items[1..], n)
  }

  function CapFields(fields: seq<Field>, n: nat): (r: seq<Field>)
    ensures |r| == |fields|
    decreases fields, 0
  {
    if fields == [] then [] else [Field(fields[0].key, Cap(fields[0].value, n))] + CapFields(fields[1..], n)
  }

  function CappedSize(j: Json, n: nat): nat {
    Size(Cap(j, n), false)
  }

  lemma {:induction false} ItemsMonotone(items: seq<Json>, m: nat, n: nat)
    requires m <= n
    ensures ItemsSize(CapItems(items, m), false) <= ItemsSize(CapItems(items, n), false)
    decreases items, 0
  {
    if items != [] {
      CapMonotone(items[0], m, n);
      ItemsMonotone(items[1..], m, n);
      assert CapItems(items, m)[1..] == CapItems(items[1..], m);
      assert CapItems(items, n)[1..] == CapItems(items[1..], n);
    }
  }

  lemma {:induction false} FieldsMonotone(fields: seq<Field>, m: nat, n: nat)
    requires m <= n
    ensures FieldsSize(CapFields(fields, m), false) <= FieldsSize(CapFields(fields, n), false)
    decreases fields, 0
  {
    if fields != [] {
      CapMonotone(fields[0].value, m, n);
      FieldsMonotone(fields[1..], m, n);
      assert CapFields(fields, m)[1..] == CapFields(fields[1..], m);
      assert CapFields(fields, n)[1..] == CapFields(fields[1..], n);
    }
  }

  /** For every nested value the encoded size grows with the string cap. */
  lemma {:induction false} CapMonotone(j: Json, m: nat, n: nat)
    requires m <= n
    ensures CappedSize(j, m) <= CappedSize(j, n)
    decreases j, 1
  {
    match j
    case JStr(s) => EscapedSizeMonotone(s, Min(m, |s|), Min(n, |s|), false);
    case JArr(items) => ItemsMonotone(items, m, n);
    case JObj(fields) => FieldsMonotone(fields, m, n);
    case _ =>
  }

  /**
    `k` is `j` with shorter strings: every string is a prefix of the one it replaces, of at most n
    characters and no shorter than it must be; keys, numbers, lengths and everything else are as before.
  */
  ghost predicate Shrunk(j: Json, k: Json, n: nat)
    decreases j
  {
    match j
    case JStr(s) => k.JStr? && k.s <= s && |k.s| <= n && (|k.s| < n ==> k.s == s)
    case JArr(items) => k.JArr? && |k.items| == |items| && forall i :: 0 <= i < |items| ==> Shrunk(items[i], k.items[i], n)
    case JObj(fields) =>
      && k.JObj? && |k.fields| == |fields|
      && forall i :: 0 <= i < |fields| ==> k.fields[i].key == fields[i].key && Shrunk(fields[i].value, k.fields[i].value, n)
    case _ => k == j
  }

  lemma {:induction false} ItemsShrink(items: seq<Json>, n: nat, i: nat)
    requires i < |items|
    ensures Shrunk(items[i], CapItems(items, n)[i], n)
    decreases items, 0
  {
    if i == 0 {
      CapShrinks(items[0], n);
    } else {
      ItemsShrink(items[1..], n, i - 1);
    }
  }

  lemma {:induction false} FieldsShrink(fields: seq<Field>, n: nat, i: nat)
    requires i < |fields|
    ensures CapFields(fields, n)[i].key == fields[i].key && Shrunk(fields[i].value, CapFields(fields, n)[i].value, n)
    decreases fields, 0
  {
    if i == 0 {
      CapShrinks(fields[0].value, n);
    } else {
      FieldsShrink(fields[1..], n, i - 1);
    }
  }

  /** Capping shortens strings and changes nothing else. */
  lemma {:induction false} CapShrinks(j: Json, n: nat)
    ensures Shrunk(j, Cap(j, n), n)
    decreases j, 1
  {
    match j
    case JArr(items) =>
      forall i | 0 <= i < |items|
        ensures Shrunk(items[i], CapItems(items, n)[i], n)
      {
        ItemsShrink(items, n, i);
      }
    case JObj(fields) =>
      forall i | 0 <= i < |fields|
        ensures CapFields(fields, n)[i].key == fields[i].key && Shrunk(fields[i].value, CapFields(fields, n)[i].value, n)
      {
        FieldsShrink(fields, n, i);
      }
    case _ =>
  }

  /** The essential fields are those members of the object, in that order, with the values they have there. */
  lemma {:induction false} EssentialIs(fields: seq<Field>, keys: seq<string>, key: string)
    ensures Lookup(Essential(fields, keys), key) == if key in keys then Lookup(fields, key) else None
  {
    if keys != [] {
      EssentialIs(fields, keys[1..], key);
      assert keys == [keys[0]] + keys[1..];
      var v, rest := Lookup(fields, keys[0]), Essential(fields, keys[1..]);
      if v.Some? {
        assert ([Field(keys[0], v.value)] + rest)[1..] == rest;
      }
    }
  }

  /** `n` is the largest cap up to the limit whose value fits. */
  ghost predicate LargestCap(j: Json, limit: int, n: nat) {
    n <= limit && CappedSize(j, n) <= limit && forall m :: n < m <= limit ==> CappedSize(j, m) > limit
  }

  /**
    _largest_string_capped_value: a binary search over the cap. JNull stands for the source's None,
    which means that nothing fits, and which is also the value null itself.
  */
  method LargestStringCapped(value: Json, limit: int) returns (best: Json)
    ensures if Fits(value, limit) then CappedAtMost(value, limit, best) else best.JNull?
    ensures Fits(value, limit) && best.JNull? ==> value.JNull?
  {
    var low, high := 0, limit;
    best := JNull;
    while low <= high
      invariant 0 <= low && high <= limit && (0 <= limit ==> low <= high + 1)
      invariant limit < 0 ==> high < 0
      invariant low == 0 ==> best.JNull?
      invariant low > 0 ==> best == Cap(value, low - 1) && CappedSize(value, low - 1) <= limit && low - 1 <= limit
      invariant forall m: nat :: high < m <= limit ==> CappedSize(value, m) > limit
      decreases high - low
    {
      var n := (low + high) / 2;
      var candidate := Cap(value, n);
      var size := |Utf8(Encode(candidate, false))|;
      SizeIs(candidate, false);
      if size <= limit {
        best := candidate;
        low := n + 1;
      } else {
        forall m: nat | n <= m <= limit
          ensures CappedSize(value, m) > limit
        {
          CapMonotone(value, n, m);
        }
        high := n - 1;
      }
    }
    if low > 0 {
      assert LargestCap(value, limit, low - 1);
      CapMonotone(value, 0, low - 1);
    } else if limit >= 0 {
      assert CappedSize(value, 0) > limit;
    }
  }

  function Lookup(fields: seq<Field>, key: string): Option<Json> {
    if fields == [] then None
    else if fields[0].key == key then Some(fields[0].value)
    else Lookup(fields[1..], key)
  }

  const EssentialKeys := ["document_version", "etag", "version", "path", "cell_id"]

  function Essential(fields: seq<Field>, keys: seq<string>): seq<Field> {
    if keys == [] then []
    else
      var v := Lookup(fields, keys[0]);
      var rest := Essential(fields, keys[1..]);
      if v.Some? then [Field(keys[0], v.value)] + rest else rest
  }

  function Max(a: int, b: int): int {
    if a >= b then a else b
  }

  /** `preview` is the value at the largest cap that fits. */
  ghost predicate CappedAtMost(value: Json, limit: int, preview: Json) {
    exists n: nat :: LargestCap(value, limit, n) && preview == Cap(value, n)
  }

  /** A value with empty strings fits. */
  predicate Fits(value: Json, limit: int) {
    CappedSize(value, 0) <= limit
  }

  /**
    The value with its strings capped as little as possible; only if no cap makes it fit, the
    essential fields of an object, capped likewise; and only if they do not fit either, nothing.
  */
  ghost predicate PreviewOf(value: Json, limit: int, preview: Json) {
    if Fits(value, limit) then CappedAtMost(value, limit, preview)
    else
      match value
      case JObj(fields) =>
        var essential := JObj(Essential(fields, EssentialKeys));
        if Fits(essential, limit) then CappedAtMost(essential, limit, preview) else preview == JObj([])
      case JArr(_) => preview == JArr([])
      case _ => preview == JNull
  }

  /** _structured_preview: always within the limit, if the limit leaves room for `null`. */
  method StructuredPreview(value: Json, limit: int) returns (preview: Json)
    ensures Size(value, false) <= limit ==> preview == value
    ensures Size(value, false) > limit ==> PreviewOf(value, limit, preview)
    ensures Size(preview, false) <= Max(limit, 4)
  {
    SizeIs(value, false);
    if |Utf8(Encode(value, false))| <= limit {
      return value;
    }
    var capped := LargestStringCapped(value, limit);
    if !capped.JNull? {
      return capped;
    }
    if value.JObj? {
      var essential := LargestStringCapped(JObj(Essential(value.fields, EssentialKeys)), limit);
      if !essential.JNull? {
        return essential;
      }
      return JObj([]);
    }
    if value.JArr? {
      return JArr([]);
    }
    return JNull;
  }
}
