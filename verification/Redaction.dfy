/** Redaction of dead-letter payloads: values under listed field names, and the values of listed headers
    inside `headers` lists. How names are normalised and how a non-string header key prints are parameters. */
module Redaction {
  import opened Options
  import opened Json

  type Fields = map<string, Value>

  datatype Rules = Rules(norm: string -> string, str: Value -> string, headers: set<string>, mask: string)

  function MaskedHeader(r: Rules): Value {
    Object(map["encoding" := String("redacted"), "data" := String(r.mask)])
  }

  function HeaderName(r: Rules, item: Fields): string {
    r.norm(if "key" !in item then "" else if item["key"].String? then item["key"].s else r.str(item["key"]))
  }

  /** `names` are the listed field names in force, `parent` the normalised key the value stands under. */
  function Redact(r: Rules, v: Value, names: set<string>, parent: Option<string>): Value
    decreases v
  {
    match v
    case Object(fields) =>
      Object(map k | k in fields ::
               if r.norm(k) in names then String(r.mask) else Redact(r, fields[k], names, Some(r.norm(k))))
    case List(items) =>
      if parent == Some("headers") then List(seq(|items|, i requires 0 <= i < |items| => RedactHeader(r, items[i])))
      else List(seq(|items|, i requires 0 <= i < |items| => Redact(r, items[i], names, parent)))
    case _ => v
  }

  function RedactHeader(r: Rules, item: Value): Value
    decreases item
  {
    if !item.Object? then item
    else if HeaderName(r, item.fields) !in r.headers then
      Object(map k | k in item.fields :: Redact(r, item.fields[k], {}, Some(r.norm(k))))
    else Object(item.fields["value" := MaskedHeader(r)])
  }

  method RedactValue(r: Rules, v: Value, names: set<string>, parent: Option<string>) returns (redacted: Value)
    ensures redacted == Redact(r, v, names, parent)
    decreases v, 0
  {
    match v {
      case Object(fields) =>
        var filled: Fields := map[];
        var keys := fields.Keys;
        while keys != {}
          invariant keys <= fields.Keys && filled.Keys == fields.Keys - keys
          invariant forall k :: k in filled ==>
            filled[k] == if r.norm(k) in names then String(r.mask) else Redact(r, fields[k], names, Some(r.norm(k)))
          decreases keys
        {
          var key :| key in keys;
          keys := keys - {key};
          var normalized := r.norm(key);
          if normalized in names {
            filled := filled[key := String(r.mask)];
            continue;
          }
          var inner := RedactValue(r, fields[key], names, Some(normalized));
          filled := filled[key := inner];
        }
        redacted := Object(filled);
        assert filled == Redact(r, v, names, parent).fields;
      case List(items) =>
        var out: seq<Value> := [];
        for i := 0 to |items|
          invariant |out| == i
          invariant forall j :: 0 <= j < i ==>
            out[j] == if parent == Some("headers") then RedactHeader(r, items[j])
                      else Redact(r, items[j], names, parent)
        {
          var inner;
          if parent == Some("headers") {
            inner := RedactHeaderItem(r, items[i]);
          } else {
            inner := RedactValue(r, items[i], names, parent);
          }
          out := out + [inner];
        }
        redacted := List(out);
        assert out == Redact(r, v, names, parent).items;
      case _ =>
        redacted := v;
    }
  }

  method RedactHeaderItem(r: Rules, item: Value) returns (redacted: Value)
    ensures redacted == RedactHeader(r, item)
    decreases item, 1
  {
    if !item.Object? {
      return item;
    }
    if HeaderName(r, item.fields) !in r.headers {
      var filled: Fields := map[];
      var keys := item.fields.Keys;
      while keys != {}
        invariant keys <= item.fields.Keys && filled.Keys == item.fields.Keys - keys
        invariant forall k :: k in filled ==> filled[k] == Redact(r, item.fields[k], {}, Some(r.norm(k)))
        decreases keys
      {
        var key :| key in keys;
        keys := keys - {key};
        var inner := RedactValue(r, item.fields[key], {}, Some(r.norm(key)));
        filled := filled[key := inner];
      }
      assert filled == RedactHeader(r, item).fields;
      return Object(filled);
    }
    var copied := item.fields;
    copied := copied["value" := MaskedHeader(r)];
    return Object(copied);
  }

  // ---- what is left to see ----------------------------------------------------------------------

  /** No listed field outside a `headers` list holds anything but the mask, and no listed header in one holds
      anything but the masked value. */
  predicate Clean(r: Rules, v: Value, names: set<string>, parent: Option<string>)
    decreases v
  {
    match v
    case Object(fields) =>
      forall k :: k in fields ==>
        if r.norm(k) in names then fields[k] == String(r.mask) else Clean(r, fields[k], names, Some(r.norm(k)))
    case List(items) =>
      if parent == Some("headers") then forall i :: 0 <= i < |items| ==> CleanHeader(r, items[i])
      else forall i :: 0 <= i < |items| ==> Clean(r, items[i], names, parent)
    case _ => true
  }

  predicate CleanHeader(r: Rules, item: Value)
    decreases item
  {
    item.Object? ==>
      if HeaderName(r, item.fields) in r.headers
      then "value" in item.fields && item.fields["value"] == MaskedHeader(r)
      else forall k :: k in item.fields ==> Clean(r, item.fields[k], {}, Some(r.norm(k)))
  }

  /** No listed field outside a `headers` list holds anything but the mask. */
  predicate FieldsMasked(r: Rules, v: Value, names: set<string>, parent: Option<string>)
    decreases v
  {
    match v
    case Object(fields) =>
      forall k :: k in fields ==>
        if r.norm(k) in names then fields[k] == String(r.mask)
        else FieldsMasked(r, fields[k], names, Some(r.norm(k)))
    case List(items) =>
      parent != Some("headers") ==> forall i :: 0 <= i < |items| ==> FieldsMasked(r, items[i], names, parent)
    case _ => true
  }

  /** Every header item listed under the name it had before ends with the masked value. */
  ghost predicate HeadersMasked(r: Rules, before: Value, after: Value, names: set<string>, parent: Option<string>)
    decreases before
  {
    match before
    case Object(fields) =>
      after.Object? && forall k :: k in fields && r.norm(k) !in names ==>
        k in after.fields && HeadersMasked(r, fields[k], after.fields[k], names, Some(r.norm(k)))
    case List(items) =>
      after.List? && |after.items| == |items| && forall i :: 0 <= i < |items| ==>
        if parent == Some("headers") then HeaderMasked(r, items[i], after.items[i])
        else HeadersMasked(r, items[i], after.items[i], names, parent)
    case _ => true
  }

  /** The item stands for a listed header: its string key normalises to a listed name, or the printed form of a
      key that is not a string does; without a key the empty name decides. */
  ghost predicate Listed(r: Rules, item: Fields) {
    || ("key" in item && item["key"].String? && r.norm(item["key"].s) in r.headers)
    || ("key" in item && !item["key"].String? && r.norm(r.str(item["key"])) in r.headers)
    || ("key" !in item && r.norm("") in r.headers)
  }

  ghost predicate HeaderMasked(r: Rules, before: Value, after: Value)
    decreases before
  {
    before.Object? ==>
      && after.Object?
      && if Listed(r, before.fields)
         then after.fields == before.fields["value" := Object(map["encoding" := String("redacted"),
                                                                  "data" := String(r.mask)])]
         else
           forall k :: k in before.fields ==>
             k in after.fields && HeadersMasked(r, before.fields[k], after.fields[k], {}, Some(r.norm(k)))
  }

  /** On every tree: no listed field leaks. */
  lemma {:induction false} RedactMasksFields(r: Rules, v: Value, names: set<string>, parent: Option<string>)
    ensures FieldsMasked(r, Redact(r, v, names, parent), names, parent)
    decreases v
  {
    match v
    case Object(fields) =>
      forall k | k in fields && r.norm(k) !in names
        ensures FieldsMasked(r, Redact(r, v, names, parent).fields[k], names, Some(r.norm(k)))
      {
        RedactMasksFields(r, fields[k], names, Some(r.norm(k)));
      }
    case List(items) =>
      if parent != Some("headers") {
        forall i | 0 <= i < |items|
          ensures FieldsMasked(r, Redact(r, v, names, parent).items[i], names, parent)
        {
          RedactMasksFields(r, items[i], names, parent);
        }
      }
    case _ =>
  }

  /** On every tree: no header listed under its original name leaks. */
  lemma {:induction false} RedactMasksHeaders(r: Rules, v: Value, names: set<string>, parent: Option<string>)
    ensures HeadersMasked(r, v, Redact(r, v, names, parent), names, parent)
    decreases v
  {
    var after := Redact(r, v, names, parent);
    match v
    case Object(fields) =>
      forall k | k in fields && r.norm(k) !in names
        ensures HeadersMasked(r, fields[k], after.fields[k], names, Some(r.norm(k)))
      {
        RedactMasksHeaders(r, fields[k], names, Some(r.norm(k)));
      }
    case List(items) =>
      forall i | 0 <= i < |items|
        ensures if parent == Some("headers") then HeaderMasked(r, items[i], after.items[i])
                else HeadersMasked(r, items[i], after.items[i], names, parent)
      {
        if parent == Some("headers") {
          RedactMasksHeader(r, items[i]);
        } else {
          RedactMasksHeaders(r, items[i], names, parent);
        }
      }
    case _ =>
  }

  lemma {:induction false} RedactMasksHeader(r: Rules, item: Value)
    ensures HeaderMasked(r, item, RedactHeader(r, item))
    decreases item
  {
    if item.Object? && HeaderName(r, item.fields) !in r.headers {
      forall k | k in item.fields
        ensures HeadersMasked(r, item.fields[k], RedactHeader(r, item).fields[k], {}, Some(r.norm(k)))
      {
        RedactMasksHeaders(r, item.fields[k], {}, Some(r.norm(k)));
      }
    }
  }

  /** What becomes of one header item, from its key: an item listed under its string key, under the printed form
      of another key or under no key loses its value and nothing else; any other one has its values redacted by
      header names only. */
  lemma HeaderItemRedacted(r: Rules, fields: Fields)
    ensures var after := RedactHeader(r, Object(fields));
      && after.Object?
      && ("key" in fields && fields["key"].String? ==>
            after.fields ==
              if r.norm(fields["key"].s) in r.headers then MaskedItem(r, fields) else InnerFields(r, fields))
      && ("key" in fields && !fields["key"].String? ==>
            after.fields ==
              if r.norm(r.str(fields["key"])) in r.headers then MaskedItem(r, fields) else InnerFields(r, fields))
      && ("key" !in fields ==>
            after.fields == if r.norm("") in r.headers then MaskedItem(r, fields) else InnerFields(r, fields))
  {
  }

  function MaskedItem(r: Rules, fields: Fields): (masked: Fields)
    ensures masked.Keys == fields.Keys + {"value"}
    ensures forall k :: k in fields && k != "value" ==> masked[k] == fields[k]
    ensures masked["value"] == Object(map["encoding" := String("redacted"), "data" := String(r.mask)])
  {
    fields["value" := MaskedHeader(r)]
  }

  // ---- redacting twice --------------------------------------------------------------------------

  /** The header item's fields with each value redacted; its name is then read from the redacted `key`. */
  function InnerFields(r: Rules, fields: Fields): (inner: Fields)
    ensures inner.Keys == fields.Keys
  {
    map k | k in fields :: Redact(r, fields[k], {}, Some(r.norm(k)))
  }

  /** Every unlisted header item either keeps an unlisted name after its key is redacted, and so on inside, or
      has a value that redacts to the masked one. */
  predicate Steady(r: Rules, v: Value, names: set<string>, parent: Option<string>)
    decreases v
  {
    match v
    case Object(fields) =>
      forall k :: k in fields && r.norm(k) !in names ==> Steady(r, fields[k], names, Some(r.norm(k)))
    case List(items) =>
      if parent == Some("headers") then forall i :: 0 <= i < |items| ==> SteadyHeader(r, items[i])
      else forall i :: 0 <= i < |items| ==> Steady(r, items[i], names, parent)
    case _ => true
  }

  predicate SteadyHeader(r: Rules, item: Value)
    decreases item
  {
    item.Object? && HeaderName(r, item.fields) !in r.headers ==>
      if HeaderName(r, InnerFields(r, item.fields)) !in r.headers
      then forall k :: k in item.fields ==> Steady(r, item.fields[k], {}, Some(r.norm(k)))
      else "value" in item.fields && Redact(r, item.fields["value"], {}, Some(r.norm("value"))) == MaskedHeader(r)
  }

  /** A tree is left unchanged exactly when there was nothing to redact. */
  lemma {:induction false} CleanIffUnchanged(r: Rules, v: Value, names: set<string>, parent: Option<string>)
    ensures Redact(r, v, names, parent) == v <==> Clean(r, v, names, parent)
    decreases v
  {
    var after := Redact(r, v, names, parent);
    match v
    case Object(fields) =>
      forall k | k in fields && r.norm(k) !in names
        ensures after.fields[k] == fields[k] <==> Clean(r, fields[k], names, Some(r.norm(k)))
      {
        CleanIffUnchanged(r, fields[k], names, Some(r.norm(k)));
      }
      if Clean(r, v, names, parent) {
        assert after.fields == fields;
      }
    case List(items) =>
      forall i | 0 <= i < |items|
        ensures after.items[i] == items[i] <==>
          if parent == Some("headers") then CleanHeader(r, items[i]) else Clean(r, items[i], names, parent)
      {
        if parent == Some("headers") {
          HeaderCleanIffUnchanged(r, items[i]);
        } else {
          CleanIffUnchanged(r, items[i], names, parent);
        }
      }
      if Clean(r, v, names, parent) {
        assert after.items == items;
      }
    case _ =>
  }

  lemma {:induction false} HeaderCleanIffUnchanged(r: Rules, item: Value)
    ensures RedactHeader(r, item) == item <==> CleanHeader(r, item)
    decreases item
  {
    if item.Object? {
      var after, fields := RedactHeader(r, item), item.fields;
      if HeaderName(r, fields) in r.headers {
        assert after.fields["value"] == MaskedHeader(r);
        if CleanHeader(r, item) {
          assert after.fields == fields;
        }
      } else {
        forall k | k in fields
          ensures after.fields[k] == fields[k] <==> Clean(r, fields[k], {}, Some(r.norm(k)))
        {
          CleanIffUnchanged(r, fields[k], {}, Some(r.norm(k)));
        }
        if CleanHeader(r, item) {
          assert after.fields == fields;
        }
      }
    }
  }

  /** What a first pass leaves is clean exactly on steady trees. */
  lemma {:induction false} RedactCleans(r: Rules, v: Value, names: set<string>, parent: Option<string>)
    ensures Clean(r, Redact(r, v, names, parent), names, parent) <==> Steady(r, v, names, parent)
    decreases v
  {
    var after := Redact(r, v, names, parent);
    match v
    case Object(fields) =>
      forall k | k in fields && r.norm(k) !in names
        ensures Clean(r, after.fields[k], names, Some(r.norm(k))) <==> Steady(r, fields[k], names, Some(r.norm(k)))
      {
        RedactCleans(r, fields[k], names, Some(r.norm(k)));
      }
    case List(items) =>
      forall i | 0 <= i < |items|
        ensures (if parent == Some("headers") then CleanHeader(r, after.items[i])
                 else Clean(r, after.items[i], names, parent))
          <==> (if parent == Some("headers") then SteadyHeader(r, items[i]) else Steady(r, items[i], names, parent))
      {
        if parent == Some("headers") {
          RedactHeaderCleans(r, items[i]);
        } else {
          RedactCleans(r, items[i], names, parent);
        }
      }
    case _ =>
  }

  lemma {:induction false} RedactHeaderCleans(r: Rules, item: Value)
    ensures CleanHeader(r, RedactHeader(r, item)) <==> SteadyHeader(r, item)
    decreases item
  {
    if item.Object? && HeaderName(r, item.fields) !in r.headers {
      var after := RedactHeader(r, item);
      assert after.fields == InnerFields(r, item.fields);
      forall k | k in item.fields
        ensures Clean(r, after.fields[k], {}, Some(r.norm(k))) <==> Steady(r, item.fields[k], {}, Some(r.norm(k)))
      {
        RedactCleans(r, item.fields[k], {}, Some(r.norm(k)));
      }
    }
  }

  /** Redacting twice is redacting once if and only if the tree is steady. */
  lemma RedactIsIdempotent(r: Rules, v: Value, names: set<string>, parent: Option<string>)
    ensures Redact(r, Redact(r, v, names, parent), names, parent) == Redact(r, v, names, parent)
      <==> Steady(r, v, names, parent)
  {
    RedactCleans(r, v, names, parent);
    CleanIffUnchanged(r, Redact(r, v, names, parent), names, parent);
  }

  /** Header items name themselves with strings. */
  predicate StringKeys(v: Value) {
    match v
    case Object(fields) =>
      ("key" in fields ==> fields["key"].String?) && forall k :: k in fields ==> StringKeys(fields[k])
    case List(items) => forall i :: 0 <= i < |items| ==> StringKeys(items[i])
    case _ => true
  }

  /** In particular redaction is idempotent where items are named by strings, however names are normalised. */
  lemma {:induction false} StringKeysAreSteady(r: Rules, v: Value, names: set<string>, parent: Option<string>)
    requires StringKeys(v)
    ensures Steady(r, v, names, parent) && SteadyHeader(r, v)
    decreases v
  {
    match v
    case Object(fields) =>
      forall k | k in fields
        ensures Steady(r, fields[k], names, Some(r.norm(k))) && Steady(r, fields[k], {}, Some(r.norm(k)))
      {
        StringKeysAreSteady(r, fields[k], names, Some(r.norm(k)));
        StringKeysAreSteady(r, fields[k], {}, Some(r.norm(k)));
      }
      if "key" in fields {
        assert InnerFields(r, fields)["key"] == fields["key"];
      }
      assert HeaderName(r, InnerFields(r, fields)) == HeaderName(r, fields);
    case List(items) =>
      forall i | 0 <= i < |items|
        ensures Steady(r, items[i], names, parent) && SteadyHeader(r, items[i])
      {
        StringKeysAreSteady(r, items[i], names, parent);
      }
    case _ =>
  }

  /** Any name that is not a string, is not listed as it prints, and becomes a listed one once it is redacted
      itself, makes a second pass go further. */
  lemma OddNamesAreRedactedAgain(r: Rules, name: Value)
    requires !name.String? && r.norm(r.str(name)) !in r.headers
    requires var redacted := Redact(r, name, {}, Some(r.norm("key")));
      !redacted.String? && r.norm(r.str(redacted)) in r.headers
    ensures var v := List([Object(map["key" := name])]);
      var once := Redact(r, v, {}, Some("headers"));
      Redact(r, once, {}, Some("headers")) != once
  {
    var item := Object(map["key" := name]);
    var v := List([item]);
    assert InnerFields(r, item.fields)["key"] == Redact(r, name, {}, Some(r.norm("key")));
    assert !SteadyHeader(r, v.items[0]);
    RedactIsIdempotent(r, v, {}, Some("headers"));
  }

  /** There are such names: a table with a cookie in a `headers` list of its own, where the printed form of its
      redacted version is a listed header and the printed form of the table is not. */
  lemma OddNamesExist(norm: string -> string, str: Value -> string, mask: string)
    requires norm("headers") == "headers" && norm("cookie") == "cookie"
    requires norm(str(OddName())) != norm(str(MaskedOddName(mask))) && norm(str(OddName())) != "cookie"
    ensures var r := Rules(norm, str, {"cookie", norm(str(MaskedOddName(mask)))}, mask);
      var once := Redact(r, List([Object(map["key" := OddName()])]), {}, Some("headers"));
      Redact(r, once, {}, Some("headers")) != once
  {
    var r := Rules(norm, str, {"cookie", norm(str(MaskedOddName(mask)))}, mask);
    OddNameIsMasked(r);
    OddNamesAreRedactedAgain(r, OddName());
  }

  function OddName(): Value {
    Object(map["headers" := List([Object(map["key" := String("cookie")])])])
  }

  function MaskedOddName(mask: string): Value {
    var value := Object(map["encoding" := String("redacted"), "data" := String(mask)]);
    Object(map["headers" := List([Object(map["key" := String("cookie"), "value" := value])])])
  }

  lemma OddNameIsMasked(r: Rules)
    requires r.norm("headers") == "headers" && r.norm("cookie") == "cookie" && "cookie" in r.headers
    ensures Redact(r, OddName(), {}, Some(r.norm("key"))) == MaskedOddName(r.mask)
  {
    var inner := Object(map["key" := String("cookie")]);
    assert HeaderName(r, inner.fields) == "cookie";
    var list := OddName().fields["headers"];
    assert RedactHeader(r, inner) == MaskedOddName(r.mask).fields["headers"].items[0];
    assert Redact(r, list, {}, Some("headers")).items == MaskedOddName(r.mask).fields["headers"].items;
    assert Redact(r, OddName(), {}, Some(r.norm("key"))).fields == MaskedOddName(r.mask).fields;
  }

  // ---- paths ------------------------------------------------------------------------------------

  datatype Link = Key(k: string) | Index(i: nat)

  type Path = seq<Link>

  function At(v: Value, path: Path): Option<Value> {
    if path == [] then Some(v)
    else match path[0]
      case Key(k) => if v.Object? && k in v.fields then At(v.fields[k], path[1..]) else None
      case Index(i) => if v.List? && i < |v.items| then At(v.items[i], path[1..]) else None
  }

  /** The path goes through a listed field, or through the value of a listed header. */
  predicate Hidden(r: Rules, v: Value, names: set<string>, parent: Option<string>, path: Path)
    decreases v
  {
    path != [] &&
    match v
    case Object(fields) =>
      path[0].Key? && path[0].k in fields &&
      (r.norm(path[0].k) in names || Hidden(r, fields[path[0].k], names, Some(r.norm(path[0].k)), path[1..]))
    case List(items) =>
      path[0].Index? && path[0].i < |items| &&
      if parent == Some("headers") then HiddenInHeader(r, items[path[0].i], path[1..])
      else Hidden(r, items[path[0].i], names, parent, path[1..])
    case _ => false
  }

  predicate HiddenInHeader(r: Rules, item: Value, path: Path)
    decreases item
  {
    path != [] && item.Object? && path[0].Key? &&
    if HeaderName(r, item.fields) in r.headers then path[0].k == "value"
    else path[0].k in item.fields && Hidden(r, item.fields[path[0].k], {}, Some(r.norm(path[0].k)), path[1..])
  }

  predicate SameShape(a: Option<Value>, b: Option<Value>) {
    match (a, b)
    case (None, None) => true
    case (Some(x), Some(y)) =>
      (x.Object? <==> y.Object?) && (x.List? <==> y.List?)
      && (x.List? && y.List? ==> |x.items| == |y.items|) && (!x.Object? && !x.List? ==> x == y)
    case _ => false
  }

  /** Redaction keeps the tree: along every path that does not go through a redacted value, the same nodes are
      found, with the same scalars. */
  lemma {:induction false} RedactKeepsShape(r: Rules, v: Value, names: set<string>, parent: Option<string>, path: Path)
    requires !Hidden(r, v, names, parent, path)
    ensures SameShape(At(v, path), At(Redact(r, v, names, parent), path))
    decreases v
  {
    if path != [] {
      match v
      case Object(fields) =>
        if path[0].Key? && path[0].k in fields {
          RedactKeepsShape(r, fields[path[0].k], names, Some(r.norm(path[0].k)), path[1..]);
        }
      case List(items) =>
        if path[0].Index? && path[0].i < |items| {
          if parent == Some("headers") {
            HeaderKeepsShape(r, items[path[0].i], path[1..]);
          } else {
            RedactKeepsShape(r, items[path[0].i], names, parent, path[1..]);
          }
        }
      case _ =>
    }
  }

  lemma {:induction false} HeaderKeepsShape(r: Rules, item: Value, path: Path)
    requires !HiddenInHeader(r, item, path)
    ensures SameShape(At(item, path), At(RedactHeader(r, item), path))
    decreases item
  {
    if path != [] && item.Object? && path[0].Key? && path[0].k in item.fields {
      var k := path[0].k;
      if HeaderName(r, item.fields) in r.headers {
        SameAsItself(At(item.fields[k], path[1..]));
      } else {
        RedactKeepsShape(r, item.fields[k], {}, Some(r.norm(k)), path[1..]);
      }
    }
  }

  lemma SameAsItself(x: Option<Value>)
    ensures SameShape(x, x)
  {
  }

  // ---- the policy -------------------------------------------------------------------------------

  datatype Mode = Raw | Redacted | Encrypted

  const COMMON_FIELDS: set<string> := {
    "access_token", "api_key", "authorization", "client_secret", "cookie", "password", "private_key",
    "refresh_token", "secret", "set-cookie", "token", "x-api-key", "x_api_key" }

  const COMMON_HEADERS: set<string> := {
    "api-key", "authorization", "cookie", "proxy-authorization", "set-cookie", "x-api-key", "x-auth-token" }

  /** The configured names are normalised once, when the policy is built. */
  datatype Policy = Policy(mode: Mode, fields: set<string>, headers: set<string>, mask: string, common: bool)

  function FieldNames(p: Policy, norm: string -> string): set<string> {
    (set n | n in p.fields :: norm(n)) + if p.common then COMMON_FIELDS else {}
  }

  function RulesOf(p: Policy, norm: string -> string, str: Value -> string): Rules {
    Rules(norm, str, (set n | n in p.headers :: norm(n)) + if p.common then COMMON_HEADERS else {}, p.mask)
  }

  /** Item `i` of a `headers` list of the payload is named by a string. */
  ghost predicate StringItem(payload: Fields, norm: string -> string, k: string, i: int) {
    && k in payload && norm(k) == "headers" && payload[k].List? && 0 <= i < |payload[k].items|
    && payload[k].items[i].Object? && "key" in payload[k].items[i].fields
    && payload[k].items[i].fields["key"].String?
  }

  /** The name normalises like a configured one, or to a common one. */
  ghost predicate ListedHeader(p: Policy, norm: string -> string, name: string) {
    (exists m :: m in p.headers && norm(m) == norm(name)) || (p.common && norm(name) in COMMON_HEADERS)
  }

  lemma StringItemsMasked(p: Policy, norm: string -> string, str: Value -> string, payload: Fields, k: string, i: nat)
    requires StringItem(payload, norm, k, i) && norm(k) !in FieldNames(p, norm)
    ensures var kept := Redact(RulesOf(p, norm, str), Object(payload), FieldNames(p, norm), None);
      && StringItem(kept.fields, norm, k, i)
      && (ListedHeader(p, norm, payload[k].items[i].fields["key"].s) ==>
            "value" in kept.fields[k].items[i].fields
            && kept.fields[k].items[i].fields["value"]
               == Object(map["encoding" := String("redacted"), "data" := String(p.mask)]))
  {
    var r := RulesOf(p, norm, str);
    var item := payload[k].items[i];
    var kept := Redact(r, Object(payload), FieldNames(p, norm), None);
    assert kept.fields[k] == Redact(r, payload[k], FieldNames(p, norm), Some("headers"));
    assert kept.fields[k].items[i] == RedactHeader(r, item);
    HeaderItemRedacted(r, item.fields);
    assert InnerFields(r, item.fields)["key"] == item.fields["key"];
    assert ListedHeader(p, norm, item.fields["key"].s) <==> norm(item.fields["key"].s) in r.headers;
  }

  /** Only the redacting mode touches the payload; then, whatever the payload, no listed field outside a
      `headers` list and no header listed under its name keeps its value. Listed are the configured names as they
      normalise, and the common ones unless switched off. */
  method Apply(p: Policy, norm: string -> string, str: Value -> string, payload: Fields) returns (kept: Value)
    ensures p.mode != Redacted ==> kept == Object(payload)
    ensures p.mode == Redacted ==>
      var r, names := RulesOf(p, norm, str), FieldNames(p, norm);
      && (forall n :: n in names <==> (exists m :: m in p.fields && norm(m) == n) || (p.common && n in COMMON_FIELDS))
      && (forall n :: n in r.headers <==>
            (exists m :: m in p.headers && norm(m) == n) || (p.common && n in COMMON_HEADERS))
      && (r.norm, r.str, r.mask) == (norm, str, p.mask)
      && kept == Redact(r, Object(payload), names, None)
      && FieldsMasked(r, kept, names, None) && HeadersMasked(r, Object(payload), kept, names, None)
    ensures p.mode == Redacted ==>
      forall k, i :: StringItem(payload, norm, k, i) && norm(k) !in FieldNames(p, norm) ==>
        StringItem(kept.fields, norm, k, i)
        && (ListedHeader(p, norm, payload[k].items[i].fields["key"].s) ==>
              "value" in kept.fields[k].items[i].fields
              && kept.fields[k].items[i].fields["value"]
                 == Object(map["encoding" := String("redacted"), "data" := String(p.mask)]))
  {
    if p.mode == Raw || p.mode == Encrypted {
      return Object(payload);
    }
    var r, names := RulesOf(p, norm, str), FieldNames(p, norm);
    kept := RedactValue(r, Object(payload), names, None);
    RedactMasksFields(r, Object(payload), names, None);
    RedactMasksHeaders(r, Object(payload), names, None);
    forall k, i | StringItem(payload, norm, k, i) && norm(k) !in names
      ensures StringItem(kept.fields, norm, k, i)
      ensures ListedHeader(p, norm, payload[k].items[i].fields["key"].s) ==>
        "value" in kept.fields[k].items[i].fields
        && kept.fields[k].items[i].fields["value"]
           == Object(map["encoding" := String("redacted"), "data" := String(p.mask)])
    {
      StringItemsMasked(p, norm, str, payload, k, i);
    }
  }
}
