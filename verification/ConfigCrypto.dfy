/** Encrypting, decrypting and masking the secrets in a configuration tree. */
module ConfigCrypto {
  import opened Prelude
  import opened ConfigKeys

  const PREFIX := "enc:v1:"

  const MASK := "******"

  predicate IsEncrypted(s: string) {
    PREFIX <= s
  }

  /** A decoded JSON value; `Other` stands for numbers, booleans and null. */
  datatype Json =
    | Obj(fields: map<string, Json>)
    | Arr(items: seq<Json>)
    | Str(text: string)
    | Other(literal: string)

  datatype Edge = Field(key: string) | Index(i: nat)

  type Path = seq<Edge>

  /** Seal draws a fresh nonce for each call; Open needs none. Both may fail. */
  datatype KeyManager = KeyManager(seal: (string, nat) -> Result<string>, open: string -> Result<string>)

  /** Open inverts Seal, whose output carries the prefix. */
  ghost predicate Lawful(km: KeyManager) {
    forall s, nonce :: km.seal(s, nonce).Ok? ==>
      IsEncrypted(km.seal(s, nonce).value) && km.open(km.seal(s, nonce).value) == Ok(s)
  }

  /** Authenticated encryption adds to the length of what it hides, so no text opens to itself. */
  ghost predicate Expanding(km: KeyManager) {
    forall c :: km.open(c).Ok? ==> |km.open(c).value| < |c|
  }

  datatype Mode = Encrypt | Decrypt | Mask

  /** One traversal: what it does, with which key, and the nonce of each Seal call by position. */
  datatype Setup = Setup(mode: Mode, km: Option<KeyManager>, nonces: Path -> nat)

  /** The string case of transformConfigValue, under the nearest enclosing key. */
  function TransformText(t: Setup, key: string, nonce: nat, s: string): Result<string> {
    if !(Sensitive(key) || IsEncrypted(s)) || s == "" then Ok(s)
    else match t.mode
      case Encrypt =>
        if IsEncrypted(s) then Ok(s) else if t.km.None? then Err else t.km.value.seal(s, nonce)
      case Decrypt =>
        if !IsEncrypted(s) then Ok(s) else if t.km.None? then Err else t.km.value.open(s)
      case Mask => Ok(MASK)
  }

  /** transformConfigValue: maps and arrays are rebuilt around their transformed children. */
  function Transform(t: Setup, v: Json, key: string, here: Path): Result<Json>
    decreases v
  {
    match v
    case Obj(fields) =>
      if exists k :: k in fields && Transform(t, fields[k], k, here + [Field(k)]).Err? then Err
      else Ok(Obj(map k | k in fields :: Transform(t, fields[k], k, here + [Field(k)]).value))
    case Arr(items) =>
      if exists i :: 0 <= i < |items| && Transform(t, items[i], key, here + [Index(i)]).Err? then Err
      else Ok(Arr(seq(|items|, i requires 0 <= i < |items| => Transform(t, items[i], key, here + [Index(i)]).value)))
    case Str(s) =>
      var r := TransformText(t, key, t.nonces(here), s);
      if r.Err? then Err else Ok(Str(r.value))
    case Other(_) => Ok(v)
  }

  function TransformAll(t: Setup, v: Json): Result<Json> {
    Transform(t, v, "", [])
  }

  lemma {:induction false} ObjectDone(t: Setup, fields: map<string, Json>, key: string, here: Path,
                                      out: map<string, Json>)
    requires out.Keys == fields.Keys
    requires forall k :: k in out ==> Transform(t, fields[k], k, here + [Field(k)]) == Ok(out[k])
    ensures Transform(t, Obj(fields), key, here) == Ok(Obj(out))
  {
    hide TransformText;
    assert Transform(t, Obj(fields), key, here).value.fields == out;
  }

  lemma {:induction false} ArrayDone(t: Setup, items: seq<Json>, key: string, here: Path, out: seq<Json>)
    requires |out| == |items|
    requires forall i :: 0 <= i < |out| ==> Transform(t, items[i], key, here + [Index(i)]) == Ok(out[i])
    ensures Transform(t, Arr(items), key, here) == Ok(Arr(out))
  {
    hide TransformText;
    assert Transform(t, Arr(items), key, here).value.items == out;
  }

  /** The code: objects and arrays are filled entry by entry, objects in any order, up to the first error. */
  method TransformConfigValue(t: Setup, v: Json, key: string, here: Path) returns (r: Result<Json>)
    ensures r == Transform(t, v, key, here)
    decreases v
  {
    hide TransformText;
    match v {
      case Obj(fields) =>
        var out: map<string, Json> := map[];
        var todo := fields.Keys;
        while todo != {}
          invariant todo <= fields.Keys && out.Keys == fields.Keys - todo
          invariant forall k :: k in out ==> Transform(t, fields[k], k, here + [Field(k)]) == Ok(out[k])
          decreases todo
        {
          var k :| k in todo;
          var next := TransformConfigValue(t, fields[k], k, here + [Field(k)]);
          if next.Err? {
            return Err;
          }
          out := out[k := next.value];
          todo := todo - {k};
        }
        ObjectDone(t, fields, key, here, out);
        r := Ok(Obj(out));
      case Arr(items) =>
        var out: seq<Json> := [];
        for i := 0 to |items|
          invariant |out| == i
          invariant forall h :: 0 <= h < i ==> Transform(t, items[h], key, here + [Index(h)]) == Ok(out[h])
        {
          var next := TransformConfigValue(t, items[i], key, here + [Index(i)]);
          if next.Err? {
            return Err;
          }
          out := out + [next.value];
        }
        ArrayDone(t, items, key, here, out);
        r := Ok(Arr(out));
      case Str(s) =>
        var text := TransformText(t, key, t.nonces(here), s);
        r := if text.Err? then Err else Ok(Str(text.value));
      case Other(_) => r := Ok(v);
    }
  }

  // ----- a tree by its positions -----

  function Child(v: Json, e: Edge): Option<Json> {
    match e
    case Field(k) => if v.Obj? && k in v.fields then Some(v.fields[k]) else None
    case Index(i) => if v.Arr? && i < |v.items| then Some(v.items[i]) else None
  }

  function At(v: Json, p: Path): Option<Json>
    decreases |p|
  {
    if p == [] then Some(v)
    else if Child(v, p[0]).None? then None
    else At(Child(v, p[0]).value, p[1..])
  }

  /** The key of the innermost object on the way to p; elements of an array share the array's key. */
  function NearestKey(key: string, p: Path): string
    decreases |p|
  {
    if p == [] then key
    else NearestKey(if p[0].Field? then p[0].key else key, p[1..])
  }

  /** It is the last key on the way, and the key the traversal starts with if there is none. */
  lemma {:induction false} NearestKeyIsLast(key: string, p: Path)
    ensures (forall i :: 0 <= i < |p| ==> p[i].Index?) ==> NearestKey(key, p) == key
    ensures forall i :: 0 <= i < |p| && p[i].Field? && (forall h :: i < h < |p| ==> p[h].Index?) ==>
              NearestKey(key, p) == p[i].key
    decreases |p|
  {
    if p != [] {
      var first, rest := if p[0].Field? then p[0].key else key, p[1..];
      NearestKeyIsLast(first, rest);
      assert NearestKey(key, p) == NearestKey(first, rest);
      assert forall i :: 0 <= i < |rest| ==> rest[i] == p[i + 1];
      forall i | 0 <= i < |p| && p[i].Field? && forall h :: i < h < |p| ==> p[h].Index?
        ensures NearestKey(key, p) == p[i].key
      {
        if i > 0 {
          assert rest[i - 1] == p[i];
        }
      }
    }
  }

  predicate TextAt(v: Json, p: Path, s: string) {
    At(v, p) == Some(Str(s))
  }

  /** Same kind of value, same keys, same length, same literal; texts are compared elsewhere. */
  predicate SameShape(a: Option<Json>, b: Option<Json>) {
    match (a, b)
    case (None, None) => true
    case (Some(Obj(f)), Some(Obj(g))) => f.Keys == g.Keys
    case (Some(Arr(f)), Some(Arr(g))) => |f| == |g|
    case (Some(Str(_)), Some(Str(_))) => true
    case (Some(Other(f)), Some(Other(g))) => f == g
    case _ => false
  }

  /** A successful traversal keeps the shape at every position, and changes each text by the string
      case alone, under the nearest key and the nonce of its position. */
  lemma {:induction false} TransformAt(t: Setup, v: Json, key: string, here: Path, p: Path)
    requires Transform(t, v, key, here).Ok?
    ensures
      var v' := Transform(t, v, key, here).value;
      && SameShape(At(v, p), At(v', p))
      && (At(v, p).Some? && At(v, p).value.Str? ==>
            TransformText(t, NearestKey(key, p), t.nonces(here + p), At(v, p).value.text)
            == Ok(At(v', p).value.text))
    decreases |p|
  {
    hide Sensitive, TransformText;
    if p == [] {
      assert here + p == here;
    } else {
      assert here + p == here + [p[0]] + p[1..];
      if Child(v, p[0]).Some? {
        TransformAt(t, Child(v, p[0]).value, if p[0].Field? then p[0].key else key, here + [p[0]], p[1..]);
      }
    }
  }

  lemma {:induction false} AtStep(v: Json, e: Edge, p: Path)
    ensures At(v, [e] + p) == if Child(v, e).None? then None else At(Child(v, e).value, p)
  {
    assert ([e] + p)[1..] == p;
  }

  /** A traversal that fails does so at some text. */
  lemma {:induction false} FailsAt(t: Setup, v: Json, key: string, here: Path) returns (p: Path)
    requires Transform(t, v, key, here).Err?
    ensures At(v, p).Some? && At(v, p).value.Str?
    ensures TransformText(t, NearestKey(key, p), t.nonces(here + p), At(v, p).value.text).Err?
    decreases v
  {
    match v {
      case Obj(fields) =>
        var k :| k in fields && Transform(t, fields[k], k, here + [Field(k)]).Err?;
        var q := FailsAt(t, fields[k], k, here + [Field(k)]);
        p := [Field(k)] + q;
        AtStep(v, Field(k), q);
        assert p[1..] == q && here + p == here + [Field(k)] + q;
      case Arr(items) =>
        var i :| 0 <= i < |items| && Transform(t, items[i], key, here + [Index(i)]).Err?;
        var q := FailsAt(t, items[i], key, here + [Index(i)]);
        p := [Index(i)] + q;
        AtStep(v, Index(i), q);
        assert p[1..] == q && here + p == here + [Index(i)] + q;
      case Str(s) =>
        p := [];
        assert here + p == here;
      case Other(_) =>
    }
  }

  /** Trees that agree at every position are equal. */
  lemma {:induction false} Extensional(v: Json, w: Json)
    requires forall p :: SameShape(At(v, p), At(w, p))
    requires forall p, s :: TextAt(v, p, s) ==> TextAt(w, p, s)
    ensures v == w
    decreases v
  {
    assert SameShape(At(v, []), At(w, []));
    match v {
      case Obj(fields) =>
        forall k | k in fields
          ensures fields[k] == w.fields[k]
        {
          ChildrenAgree(v, w, Field(k), fields[k], w.fields[k]);
          Extensional(fields[k], w.fields[k]);
        }
        assert fields == w.fields;
      case Arr(items) =>
        forall i | 0 <= i < |items|
          ensures items[i] == w.items[i]
        {
          ChildrenAgree(v, w, Index(i), items[i], w.items[i]);
          Extensional(items[i], w.items[i]);
        }
        assert items == w.items;
      case Str(s) => assert TextAt(v, [], s) && TextAt(w, [], s);
      case Other(_) =>
    }
  }

  lemma {:induction false} ChildrenAgree(v: Json, w: Json, e: Edge, child: Json, child': Json)
    requires forall p :: SameShape(At(v, p), At(w, p))
    requires forall p, s :: TextAt(v, p, s) ==> TextAt(w, p, s)
    requires At(v, [e]) == Some(child) && At(w, [e]) == Some(child')
    ensures forall p :: SameShape(At(child, p), At(child', p))
    ensures forall p, s :: TextAt(child, p, s) ==> TextAt(child', p, s)
  {
    forall p
      ensures At(child, p) == At(v, [e] + p) && At(child', p) == At(w, [e] + p)
    {
      AtStep(v, e, p);
      AtStep(w, e, p);
      AtStep(v, e, []);
      AtStep(w, e, []);
      assert [e] + [] == [e];
    }
    forall p, s | TextAt(child, p, s)
      ensures TextAt(child', p, s)
    {
      assert TextAt(v, [e] + p, s);
    }
  }

  lemma {:induction false} TextThatFails(t: Setup, v: Json) returns (p: Path)
    requires TransformAll(t, v).Err?
    ensures At(v, p).Some? && At(v, p).value.Str? && TextAt(v, p, At(v, p).value.text)
    ensures TransformText(t, NearestKey("", p), t.nonces(p), At(v, p).value.text).Err?
  {
    p := FailsAt(t, v, "", []);
    assert [] + p == p;
  }

  lemma {:induction false} TransformAllAt(t: Setup, v: Json, p: Path)
    requires TransformAll(t, v).Ok?
    ensures
      var v' := TransformAll(t, v).value;
      && SameShape(At(v, p), At(v', p))
      && (At(v, p).Some? && At(v, p).value.Str? ==>
            TransformText(t, NearestKey("", p), t.nonces(p), At(v, p).value.text) == Ok(At(v', p).value.text))
  {
    TransformAt(t, v, "", [], p);
    assert [] + p == p;
  }

  /** If the string case turns each text of v into the text of w there, the traversal turns v into w. */
  lemma {:induction false} TransformsInto(t: Setup, v: Json, w: Json)
    requires forall p :: SameShape(At(v, p), At(w, p))
    requires forall p, s :: TextAt(v, p, s) ==>
               At(w, p).Some? && At(w, p).value.Str?
               && TransformText(t, NearestKey("", p), t.nonces(p), s) == Ok(At(w, p).value.text)
    ensures TransformAll(t, v) == Ok(w)
  {
    if TransformAll(t, v).Err? {
      var p := TextThatFails(t, v);
    }
    var v' := TransformAll(t, v).value;
    forall p
      ensures SameShape(At(v', p), At(w, p))
    {
      TransformAllAt(t, v, p);
    }
    forall p, s | TextAt(v', p, s)
      ensures TextAt(w, p, s)
    {
      TransformAllAt(t, v, p);
      assert TextAt(v, p, At(v, p).value.text);
    }
    Extensional(v', w);
  }

  // ----- the laws -----

  ghost predicate HoldsEncrypted(v: Json) {
    exists p, s :: TextAt(v, p, s) && IsEncrypted(s)
  }

  /** Text that encryption has to seal. */
  ghost predicate HoldsPlainSecret(v: Json) {
    exists p, s :: TextAt(v, p, s) && Sensitive(NearestKey("", p)) && s != "" && !IsEncrypted(s)
  }

  /** Encryption seals, with the nonce of its position, each non-empty text under a sensitive key that does not
      carry the prefix yet, and leaves every other text alone. */
  lemma {:induction false} EncryptSealsSecrets(km: KeyManager, nonces: Path -> nat, v: Json, p: Path, s: string)
    requires TextAt(v, p, s) && TransformAll(Setup(Encrypt, Some(km), nonces), v).Ok?
    ensures
      var after := At(TransformAll(Setup(Encrypt, Some(km), nonces), v).value, p);
      && after.Some? && after.value.Str?
      && if Sensitive(NearestKey("", p)) && s != "" && !("enc:v1:" <= s)
         then km.seal(s, nonces(p)) == Ok(after.value.text) else after.value.text == s
  {
    hide Sensitive, Transform;
    TransformAllAt(Setup(Encrypt, Some(km), nonces), v, p);
  }

  /** Decryption opens each text that carries the prefix, under any key, and leaves every other text alone. */
  lemma {:induction false} DecryptOpensEncrypted(km: KeyManager, nonces: Path -> nat, v: Json, p: Path, s: string)
    requires TextAt(v, p, s) && TransformAll(Setup(Decrypt, Some(km), nonces), v).Ok?
    ensures
      var after := At(TransformAll(Setup(Decrypt, Some(km), nonces), v).value, p);
      && after.Some? && after.value.Str?
      && if "enc:v1:" <= s then km.open(s) == Ok(after.value.text) else after.value.text == s
  {
    hide Sensitive, Transform;
    TransformAllAt(Setup(Decrypt, Some(km), nonces), v, p);
  }

  ghost predicate SealFails(km: KeyManager, nonces: Path -> nat, v: Json, p: Path, s: string) {
    TextAt(v, p, s) && Sensitive(NearestKey("", p)) && s != "" && !("enc:v1:" <= s) && km.seal(s, nonces(p)).Err?
  }

  ghost predicate OpenFails(km: KeyManager, v: Json, p: Path, s: string) {
    TextAt(v, p, s) && "enc:v1:" <= s && km.open(s).Err?
  }

  /** With a key, a traversal fails exactly when sealing some secret, or opening some encrypted text, does. */
  lemma {:induction false} FailsExactlyWithKey(km: KeyManager, nonces: Path -> nat, v: Json)
    ensures TransformAll(Setup(Encrypt, Some(km), nonces), v).Err? <==>
            exists p, s :: SealFails(km, nonces, v, p, s)
    ensures TransformAll(Setup(Decrypt, Some(km), nonces), v).Err? <==> exists p, s :: OpenFails(km, v, p, s)
  {
    hide Sensitive, Transform;
    var enc, dec := Setup(Encrypt, Some(km), nonces), Setup(Decrypt, Some(km), nonces);
    if TransformAll(enc, v).Err? {
      var p := TextThatFails(enc, v);
      assert SealFails(km, nonces, v, p, At(v, p).value.text);
    } else if exists p, s :: SealFails(km, nonces, v, p, s) {
      var p, s :| SealFails(km, nonces, v, p, s);
      TransformAllAt(enc, v, p);
    }
    if TransformAll(dec, v).Err? {
      var p := TextThatFails(dec, v);
      assert OpenFails(km, v, p, At(v, p).value.text);
    } else if exists p, s :: OpenFails(km, v, p, s) {
      var p, s :| OpenFails(km, v, p, s);
      TransformAllAt(dec, v, p);
    }
  }

  /** Decryption undoes encryption on exactly the trees in which no text already carries the prefix,
      whatever nonces were drawn. */
  lemma {:induction false} RoundTripExactly(km: KeyManager, nonces: Path -> nat, v: Json)
    requires Lawful(km) && Expanding(km)
    requires TransformAll(Setup(Encrypt, Some(km), nonces), v).Ok?
    ensures
      var encrypted := TransformAll(Setup(Encrypt, Some(km), nonces), v).value;
      TransformAll(Setup(Decrypt, Some(km), nonces), encrypted) == Ok(v) <==> !HoldsEncrypted(v)
  {
    hide Sensitive, Transform;
    var enc, dec := Setup(Encrypt, Some(km), nonces), Setup(Decrypt, Some(km), nonces);
    var w := TransformAll(enc, v).value;
    if HoldsEncrypted(v) {
      var p, s :| TextAt(v, p, s) && IsEncrypted(s);
      TransformAllAt(enc, v, p);
      assert TextAt(w, p, s);
      if TransformAll(dec, w) == Ok(v) {
        TransformAllAt(dec, w, p);
      }
    } else {
      forall p
        ensures SameShape(At(w, p), At(v, p))
      {
        TransformAllAt(enc, v, p);
      }
      forall p, c | TextAt(w, p, c)
        ensures At(v, p).Some? && At(v, p).value.Str?
        ensures TransformText(dec, NearestKey("", p), nonces(p), c) == Ok(At(v, p).value.text)
      {
        TransformAllAt(enc, v, p);
        assert TextAt(v, p, At(v, p).value.text);
      }
      TransformsInto(dec, w, v);
    }
  }

  /** Without a key, encryption fails exactly when there is a secret to seal. */
  lemma {:induction false} EncryptWithoutKey(nonces: Path -> nat, v: Json)
    ensures TransformAll(Setup(Encrypt, None, nonces), v).Err? <==> HoldsPlainSecret(v)
  {
    hide Sensitive, Transform;
    var enc := Setup(Encrypt, None, nonces);
    if TransformAll(enc, v).Err? {
      var p := TextThatFails(enc, v);
    } else if HoldsPlainSecret(v) {
      var p, s :| TextAt(v, p, s) && Sensitive(NearestKey("", p)) && s != "" && !IsEncrypted(s);
      TransformAllAt(enc, v, p);
    }
  }

  /** Without a key, decryption fails exactly when there is an encrypted text. */
  lemma {:induction false} DecryptWithoutKey(nonces: Path -> nat, v: Json)
    ensures TransformAll(Setup(Decrypt, None, nonces), v).Err? <==> HoldsEncrypted(v)
  {
    hide Sensitive, Transform;
    var dec := Setup(Decrypt, None, nonces);
    if TransformAll(dec, v).Err? {
      var p := TextThatFails(dec, v);
    } else if HoldsEncrypted(v) {
      var p, s :| TextAt(v, p, s) && IsEncrypted(s);
      TransformAllAt(dec, v, p);
    }
  }

  /** Encrypting again changes nothing, with any key or none and any nonces. */
  lemma {:induction false} EncryptIdempotent(km: KeyManager, nonces: Path -> nat, again: Option<KeyManager>,
                                             later: Path -> nat, v: Json)
    requires Lawful(km)
    requires TransformAll(Setup(Encrypt, Some(km), nonces), v).Ok?
    ensures
      var encrypted := TransformAll(Setup(Encrypt, Some(km), nonces), v).value;
      TransformAll(Setup(Encrypt, again, later), encrypted) == Ok(encrypted)
  {
    hide Sensitive, Transform;
    var enc := Setup(Encrypt, Some(km), nonces);
    var w := TransformAll(enc, v).value;
    forall p
      ensures SameShape(At(w, p), At(w, p))
    {
      TransformAllAt(enc, v, p);
    }
    forall p, c | TextAt(w, p, c)
      ensures TransformText(Setup(Encrypt, again, later), NearestKey("", p), later(p), c) == Ok(c)
    {
      TransformAllAt(enc, v, p);
    }
    TransformsInto(Setup(Encrypt, again, later), w, w);
  }

  lemma {:induction false} MaskSucceeds(km: Option<KeyManager>, nonces: Path -> nat, v: Json)
    ensures TransformAll(Setup(Mask, km, nonces), v).Ok?
  {
    hide Sensitive, Transform;
    if TransformAll(Setup(Mask, km, nonces), v).Err? {
      var p := TextThatFails(Setup(Mask, km, nonces), v);
    }
  }

  /** Masking shows the same for a tree and for its encryption. */
  lemma {:induction false} MaskHidesEncryption(km: KeyManager, nonces: Path -> nat, v: Json)
    requires Lawful(km)
    requires TransformAll(Setup(Encrypt, Some(km), nonces), v).Ok?
    ensures
      var encrypted := TransformAll(Setup(Encrypt, Some(km), nonces), v).value;
      TransformAll(Setup(Mask, None, nonces), encrypted) == TransformAll(Setup(Mask, None, nonces), v)
  {
    hide Sensitive, Transform;
    var enc, mask := Setup(Encrypt, Some(km), nonces), Setup(Mask, None, nonces);
    var w := TransformAll(enc, v).value;
    MaskSucceeds(None, nonces, v);
    var m := TransformAll(mask, v).value;
    forall p
      ensures SameShape(At(w, p), At(m, p))
    {
      TransformAllAt(enc, v, p);
      TransformAllAt(mask, v, p);
    }
    forall p, c | TextAt(w, p, c)
      ensures At(m, p).Some? && At(m, p).value.Str?
      ensures TransformText(mask, NearestKey("", p), nonces(p), c) == Ok(At(m, p).value.text)
    {
      TransformAllAt(enc, v, p);
      TransformAllAt(mask, v, p);
    }
    TransformsInto(mask, w, m);
  }

  /** After masking, a text is the mask if it was encrypted, or not empty under a sensitive key, at any
      depth and through arrays; every other text is as before. Masking again changes nothing. */
  lemma {:induction false} MaskCoversSecrets(nonces: Path -> nat, v: Json, p: Path, s: string)
    requires TextAt(v, p, s)
    ensures
      var masked := TransformAll(Setup(Mask, None, nonces), v);
      && masked.Ok?
      && TextAt(masked.value, p, if "enc:v1:" <= s || (Sensitive(NearestKey("", p)) && s != "") then "******" else s)
      && TransformAll(Setup(Mask, None, nonces), masked.value) == masked
  {
    hide Sensitive, Transform;
    var mask := Setup(Mask, None, nonces);
    MaskSucceeds(None, nonces, v);
    var m := TransformAll(mask, v).value;
    TransformAllAt(mask, v, p);
    forall q
      ensures SameShape(At(m, q), At(m, q))
    {
      TransformAllAt(mask, v, q);
    }
    forall q, c | TextAt(m, q, c)
      ensures TransformText(mask, NearestKey("", q), nonces(q), c) == Ok(c)
    {
      TransformAllAt(mask, v, q);
    }
    TransformsInto(mask, m, m);
  }

  /** Only the nearest key counts: a text inside an object under a sensitive key is not masked
      unless its own key is sensitive. */
  lemma {:induction false} NestedObjectEscapesMask(nonces: Path -> nat, outer: string, inner: string, s: string)
    requires Sensitive(outer) && !Sensitive(inner) && !IsEncrypted(s)
    ensures
      var v := Obj(map[outer := Obj(map[inner := Str(s)])]);
      TransformAll(Setup(Mask, None, nonces), v) == Ok(v)
  {
    hide Sensitive, Transform;
    var v := Obj(map[outer := Obj(map[inner := Str(s)])]);
    forall p
      ensures SameShape(At(v, p), At(v, p))
    {
    }
    forall p, c | TextAt(v, p, c)
      ensures TransformText(Setup(Mask, None, nonces), NearestKey("", p), nonces(p), c) == Ok(c)
    {
      OnlyTextOfNested(outer, inner, s, p, c);
    }
    TransformsInto(Setup(Mask, None, nonces), v, v);
  }

  lemma {:induction false} OnlyTextOfObject(key: string, child: Json, p: Path, c: string)
    requires TextAt(Obj(map[key := child]), p, c)
    ensures p != [] && p[0] == Field(key) && TextAt(child, p[1..], c)
  {
    var v := Obj(map[key := child]);
    assert p != [];
    assert Child(v, p[0]).Some?;
    assert p[0].Field? && p[0].key == key;
    assert v.fields[key] == child;
  }

  lemma {:induction false} OnlyTextOfNested(outer: string, inner: string, s: string, p: Path, c: string)
    requires TextAt(Obj(map[outer := Obj(map[inner := Str(s)])]), p, c)
    ensures c == s && NearestKey("", p) == inner
  {
    hide Sensitive, Transform;
    OnlyTextOfObject(outer, Obj(map[inner := Str(s)]), p, c);
    OnlyTextOfObject(inner, Str(s), p[1..], c);
    assert p[1..][1..] == [];
    assert NearestKey("", p) == NearestKey(outer, p[1..]) == NearestKey(inner, []);
  }

  // ----- the assumptions on the key manager can be met -----

  /** A stand-in for AES-GCM that satisfies the laws: seal prefixes, open strips. */
  function ToyManager(): KeyManager {
    KeyManager((s: string, nonce: nat) => Ok(PREFIX + s),
               (c: string) => if IsEncrypted(c) then Ok(c[|PREFIX|..]) else Err)
  }

  lemma {:induction false} LawsCanBeMet()
    ensures Lawful(ToyManager()) && Expanding(ToyManager())
  {
    assert forall s: string :: (PREFIX + s)[|PREFIX|..] == s;
  }
}
