/**
  Redaction of request bodies for the audit log. The sensitive-key pattern is any
  predicate on keys. Objects are their own enumerable entries in order, keys distinct.
*/
module AuditRedaction {
  import opened Options

  datatype Json =
    | Null
    | Bool(b: bool)
    | Num(n: int)
    | Str(s: string)
    | Arr(items: seq<Json>)
    | Obj(fields: seq<Field>)
    | Foreign(own: seq<Field>)  // a Date or Buffer, with the entries Object.entries sees

  datatype Field = Field(key: string, value: Json)

  const REDACTED := Str("[REDACTED]")
  const MAX_REDACTION_DEPTH := 5

  /** Assigning this key on a plain object sets the prototype and creates no entry. */
  const PROTO := "__proto__"

  type Pattern = string -> bool

  /** Sensitive keys, and everything at the depth limit. */
  predicate Hidden(p: Pattern, key: string, depth: nat) {
    p(key) || depth >= MAX_REDACTION_DEPTH
  }

  /** `result[key] = value` on the object being filled; keys of the source are distinct. */
  function Assign(result: seq<Field>, key: string, value: Json): seq<Field> {
    if key == PROTO then result else result + [Field(key, value)]
  }

  function Redact(p: Pattern, source: seq<Field>, depth: nat): seq<Field>
    decreases source, 1
  {
    if source == [] then [] else
      var last := source[|source| - 1];
      Assign(Redact(p, source[..|source| - 1], depth), last.key, RedactEntry(p, last.key, last.value, depth))
  }

  /** What is stored under one key. */
  function RedactEntry(p: Pattern, key: string, value: Json, depth: nat): Json
    decreases value, 2
  {
    if Hidden(p, key, depth) then REDACTED
    else match value
      case Arr(items) => Arr(RedactItems(p, items, depth))
      case Obj(fields) => Obj(Redact(p, fields, depth + 1))
      case _ => value
  }

  /** Objects directly in the array are redacted; anything else, arrays included, is copied. */
  function RedactItems(p: Pattern, items: seq<Json>, depth: nat): (r: seq<Json>)
    ensures |r| == |items|
    decreases items, 1
  {
    if items == [] then [] else
      var last := items[|items| - 1];
      RedactItems(p, items[..|items| - 1], depth) + [if last.Obj? then Obj(Redact(p, last.fields, depth + 1)) else last]
  }

  /** `undefined` for a missing, primitive or array body; note that a Date or Buffer body is read entry by entry. */
  function SanitizeBody(p: Pattern, body: Option<Json>): Option<Json> {
    match body
    case Some(Obj(fields)) => Some(Obj(Redact(p, fields, 0)))
    case Some(Foreign(own)) => Some(Obj(Redact(p, own, 0)))
    case _ => None
  }

  // ---- the record, told from the body ----

  /**
    `out` is a record of `src`: every entry but `__proto__`, in order, a sensitive one and
    everything from the fifth level on as "[REDACTED]", objects and the objects of an
    array in turn, and any other value as it is.
  */
  predicate Masks(p: Pattern, src: seq<Field>, out: seq<Field>, depth: nat)
    decreases src, 1
  {
    if src == [] then out == []
    else
      var last := src[|src| - 1];
      if last.key == "__proto__" then Masks(p, src[..|src| - 1], out, depth)
      else
        && out != [] && out[|out| - 1].key == last.key
        && Masks(p, src[..|src| - 1], out[..|out| - 1], depth)
        && (p(last.key) || depth >= 5 ==> out[|out| - 1].value == Str("[REDACTED]"))
        && (!p(last.key) && depth < 5 ==> MasksIn(p, last.value, out[|out| - 1].value, depth))
  }

  predicate MasksIn(p: Pattern, src: Json, out: Json, depth: nat)
    decreases src, 2
  {
    match src
    case Obj(fields) => out.Obj? && Masks(p, fields, out.fields, depth + 1)
    case Arr(items) => out.Arr? && MasksItems(p, items, out.items, depth)
    case _ => out == src
  }

  predicate MasksItems(p: Pattern, src: seq<Json>, out: seq<Json>, depth: nat)
    decreases src, 1
  {
    if src == [] then out == []
    else
      var last := src[|src| - 1];
      && out != [] && MasksItems(p, src[..|src| - 1], out[..|out| - 1], depth)
      && if last.Obj? then out[|out| - 1].Obj? && Masks(p, last.fields, out[|out| - 1].fields, depth + 1) else out[|out| - 1] == last
  }

  lemma LastOf<T>(s: seq<T>, x: T, t: seq<T>, y: T)
    ensures s + [x] == t + [y] <==> s == t && x == y
  {
    if s + [x] == t + [y] {
      assert (s + [x])[|s|] == x && (t + [y])[|t|] == y;
      assert (s + [x])[..|s|] == s && (t + [y])[..|t|] == t;
    }
  }

  /** The redaction gives the one record of its source. */
  lemma {:induction false} RedactMasksIff(p: Pattern, src: seq<Field>, out: seq<Field>, depth: nat)
    ensures out == Redact(p, src, depth) <==> Masks(p, src, out, depth)
    decreases src, 1
  {
    if src != [] {
      var front, last := src[..|src| - 1], src[|src| - 1];
      if last.key == PROTO {
        RedactMasksIff(p, front, out, depth);
      } else if out != [] {
        var entry := Field(last.key, RedactEntry(p, last.key, last.value, depth));
        RedactMasksIff(p, front, out[..|out| - 1], depth);
        EntryMasksIff(p, last.key, last.value, out[|out| - 1].value, depth);
        LastOf(Redact(p, front, depth), entry, out[..|out| - 1], out[|out| - 1]);
        assert out == out[..|out| - 1] + [out[|out| - 1]];
      }
    }
  }

  lemma {:induction false} EntryMasksIff(p: Pattern, key: string, src: Json, out: Json, depth: nat)
    ensures out == RedactEntry(p, key, src, depth) <==>
            if p(key) || depth >= 5 then out == Str("[REDACTED]") else MasksIn(p, src, out, depth)
    decreases src, 2
  {
    if src.Obj? && out.Obj? {
      RedactMasksIff(p, src.fields, out.fields, depth + 1);
    } else if src.Arr? && out.Arr? {
      ItemsMaskIff(p, src.items, out.items, depth);
    }
  }

  lemma {:induction false} ItemsMaskIff(p: Pattern, src: seq<Json>, out: seq<Json>, depth: nat)
    ensures out == RedactItems(p, src, depth) <==> MasksItems(p, src, out, depth)
    decreases src, 1
  {
    if src != [] && out != [] {
      var front, last := src[..|src| - 1], src[|src| - 1];
      var item := if last.Obj? then Obj(Redact(p, last.fields, depth + 1)) else last;
      ItemsMaskIff(p, front, out[..|out| - 1], depth);
      if last.Obj? && out[|out| - 1].Obj? {
        RedactMasksIff(p, last.fields, out[|out| - 1].fields, depth + 1);
      }
      LastOf(RedactItems(p, front, depth), item, out[..|out| - 1], out[|out| - 1]);
      assert out == out[..|out| - 1] + [out[|out| - 1]];
    }
  }

  lemma {:induction false} MaskedEntries(p: Pattern, src: seq<Field>, out: seq<Field>, depth: nat)
    requires Masks(p, src, out, depth)
    ensures forall f :: f in out && (p(f.key) || depth >= 5) ==> f.value == Str("[REDACTED]")
    ensures forall f :: f in src && f.key != "__proto__" && (p(f.key) || depth >= 5) ==> Field(f.key, Str("[REDACTED]")) in out
    ensures forall f :: f in src && f.key != "__proto__" && !p(f.key) && depth < 5 && !f.value.Obj? && !f.value.Arr? ==> f in out
    ensures forall f :: f in out ==> f.key != "__proto__" && exists g :: g in src && g.key == f.key
  {
    if src != [] {
      var front, last := src[..|src| - 1], src[|src| - 1];
      assert src == front + [last];
      if last.key == "__proto__" {
        MaskedEntries(p, front, out, depth);
      } else {
        MaskedEntries(p, front, out[..|out| - 1], depth);
        assert out == out[..|out| - 1] + [out[|out| - 1]];
      }
    }
  }

  /**
    What is recorded of a request. Only an object, or a Date or Buffer by its entries, leaves
    a record; in it a sensitive entry of the body is always "[REDACTED]", and an entry that is
    neither sensitive nor an object or array is as it was.
  */
  lemma SanitizedBodyIs(p: Pattern, body: Option<Json>)
    ensures SanitizeBody(p, body).Some? <==> body.Some? && (body.value.Obj? || body.value.Foreign?)
    ensures SanitizeBody(p, body).Some? ==>
              var src := if body.value.Obj? then body.value.fields else body.value.own;
              && SanitizeBody(p, body).value.Obj?
              && var out := SanitizeBody(p, body).value.fields;
                 && Masks(p, src, out, 0)
                 && (forall f :: f in out && p(f.key) ==> f.value == Str("[REDACTED]"))
                 && (forall f :: f in src && f.key != "__proto__" && p(f.key) ==> Field(f.key, Str("[REDACTED]")) in out)
                 && forall f :: f in src && f.key != "__proto__" && !p(f.key) && !f.value.Obj? && !f.value.Arr? ==> f in out
  {
    if body.Some? && (body.value.Obj? || body.value.Foreign?) {
      var src := if body.value.Obj? then body.value.fields else body.value.own;
      var out := SanitizeBody(p, body).value.fields;
      RedactMasksIff(p, src, out, 0);
      MaskedEntries(p, src, out, 0);
    }
  }

  // ---- the loop ----

  method RedactLoop(p: Pattern, source: seq<Field>, depth: nat) returns (result: seq<Field>)
    ensures result == Redact(p, source, depth)
    decreases source
  {
    result := [];
    for i := 0 to |source|
      invariant result == Redact(p, source[..i], depth)
    {
      var key, value := source[i].key, source[i].value;
      assert source[..i + 1][..i] == source[..i];
      if p(key) {
        result := Assign(result, key, REDACTED);
        continue;
      }
      if depth >= MAX_REDACTION_DEPTH {
        result := Assign(result, key, REDACTED);
        continue;
      }
      if value.Arr? {
        var mapped := [];
        for j := 0 to |value.items|
          invariant mapped == RedactItems(p, value.items[..j], depth)
        {
          assert value.items[..j + 1][..j] == value.items[..j];
          if value.items[j].Obj? {
            var inner := RedactLoop(p, value.items[j].fields, depth + 1);
            mapped := mapped + [Obj(inner)];
          } else {
            mapped := mapped + [value.items[j]];
          }
        }
        assert value.items[..|value.items|] == value.items;
        result := Assign(result, key, Arr(mapped));
        continue;
      }
      if value.Obj? {
        var inner := RedactLoop(p, value.fields, depth + 1);
        result := Assign(result, key, Obj(inner));
      } else {
        result := Assign(result, key, value);
      }
    }
    assert source[..|source|] == source;
  }

  // ---- what an output reveals ----

  /** The bodies agree wherever the redaction looks and does not hide. */
  predicate SameFields(p: Pattern, a: seq<Field>, b: seq<Field>, depth: nat)
    decreases a, b, 1
  {
    if a != [] && a[|a| - 1].key == PROTO then SameFields(p, a[..|a| - 1], b, depth)
    else if b != [] && b[|b| - 1].key == PROTO then SameFields(p, a, b[..|b| - 1], depth)
    else if a == [] || b == [] then a == b
    else
      var x, y := a[|a| - 1], b[|b| - 1];
      && x.key == y.key
      && SameFields(p, a[..|a| - 1], b[..|b| - 1], depth)
      && (p(x.key) || depth >= 5 || SameVisible(p, x.value, y.value, depth))
  }

  predicate SameVisible(p: Pattern, a: Json, b: Json, depth: nat)
    decreases a, b, 2
  {
    if a.Obj? && b.Obj? then SameFields(p, a.fields, b.fields, depth + 1)
    else if a.Arr? && b.Arr? then SameItems(p, a.items, b.items, depth)
    else a == b
  }

  predicate SameItems(p: Pattern, a: seq<Json>, b: seq<Json>, depth: nat)
    decreases a, b, 1
  {
    if a == [] || b == [] then a == b
    else
      var x, y := a[|a| - 1], b[|b| - 1];
      && SameItems(p, a[..|a| - 1], b[..|b| - 1], depth)
      && if x.Obj? && y.Obj? then SameFields(p, x.fields, y.fields, depth + 1) else x == y
  }

  /** Two outputs are equal exactly when the inputs agree on everything visible. */
  lemma {:induction false} RedactNoninterference(p: Pattern, a: seq<Field>, b: seq<Field>, depth: nat)
    ensures Redact(p, a, depth) == Redact(p, b, depth) <==> SameFields(p, a, b, depth)
    decreases a, b, 1
  {
    if a != [] && a[|a| - 1].key == PROTO {
      RedactNoninterference(p, a[..|a| - 1], b, depth);
    } else if b != [] && b[|b| - 1].key == PROTO {
      RedactNoninterference(p, a, b[..|b| - 1], depth);
    } else if a != [] && b != [] {
      var x, y := a[|a| - 1], b[|b| - 1];
      var ra, rb := Redact(p, a[..|a| - 1], depth), Redact(p, b[..|b| - 1], depth);
      var fa, fb := Field(x.key, RedactEntry(p, x.key, x.value, depth)), Field(y.key, RedactEntry(p, y.key, y.value, depth));
      RedactNoninterference(p, a[..|a| - 1], b[..|b| - 1], depth);
      LastOf(ra, fa, rb, fb);
      EntryNoninterference(p, x.key, x.value, y.value, depth);
    }
  }

  lemma {:induction false} EntryNoninterference(p: Pattern, key: string, a: Json, b: Json, depth: nat)
    ensures RedactEntry(p, key, a, depth) == RedactEntry(p, key, b, depth) <==>
            p(key) || depth >= 5 || SameVisible(p, a, b, depth)
    decreases a, b, 2
  {
    if a.Obj? && b.Obj? {
      RedactNoninterference(p, a.fields, b.fields, depth + 1);
    } else if a.Arr? && b.Arr? {
      ItemsNoninterference(p, a.items, b.items, depth);
    }
  }

  lemma {:induction false} ItemsNoninterference(p: Pattern, a: seq<Json>, b: seq<Json>, depth: nat)
    ensures RedactItems(p, a, depth) == RedactItems(p, b, depth) <==> SameItems(p, a, b, depth)
    decreases a, b, 1
  {
    if a != [] && b != [] {
      var x, y := a[|a| - 1], b[|b| - 1];
      ItemsNoninterference(p, a[..|a| - 1], b[..|b| - 1], depth);
      var ix := if x.Obj? then Obj(Redact(p, x.fields, depth + 1)) else x;
      var iy := if y.Obj? then Obj(Redact(p, y.fields, depth + 1)) else y;
      LastOf(RedactItems(p, a[..|a| - 1], depth), ix, RedactItems(p, b[..|b| - 1], depth), iy);
      if x.Obj? && y.Obj? {
        RedactNoninterference(p, x.fields, y.fields, depth + 1);
      }
    }
  }

  // ---- secrets in nested arrays ----

  /** The promise in full: bodies that agree off the hidden values, where arrays inside arrays are looked into as well. */
  predicate AgreeFields(p: Pattern, a: seq<Field>, b: seq<Field>, depth: nat)
    decreases a, b, 1
  {
    if a == [] || b == [] then a == b
    else
      var x, y := a[|a| - 1], b[|b| - 1];
      && x.key == y.key
      && AgreeFields(p, a[..|a| - 1], b[..|b| - 1], depth)
      && (p(x.key) || depth >= 5 || Agree(p, x.value, y.value, depth))
  }

  predicate Agree(p: Pattern, a: Json, b: Json, depth: nat)
    decreases a, b, 2
  {
    if a.Obj? && b.Obj? then AgreeFields(p, a.fields, b.fields, depth + 1)
    else if a.Arr? && b.Arr? then AgreeItems(p, a.items, b.items, depth)
    else a == b
  }

  predicate AgreeItems(p: Pattern, a: seq<Json>, b: seq<Json>, depth: nat)
    decreases a, b, 1
  {
    if a == [] || b == [] then a == b
    else AgreeItems(p, a[..|a| - 1], b[..|b| - 1], depth) && Agree(p, a[|a| - 1], b[|b| - 1], depth)
  }

  /** Nothing below is hidden, so a value that agrees with this one is this one. */
  predicate RigidFields(p: Pattern, fs: seq<Field>, depth: nat)
    decreases fs, 1
  {
    fs == [] ||
    var last := fs[|fs| - 1];
    RigidFields(p, fs[..|fs| - 1], depth) && !p(last.key) && depth < 5 && Rigid(p, last.value, depth)
  }

  predicate Rigid(p: Pattern, j: Json, depth: nat)
    decreases j, 2
  {
    match j
    case Obj(fields) => RigidFields(p, fields, depth + 1)
    case Arr(items) => RigidItems(p, items, depth)
    case _ => true
  }

  predicate RigidItems(p: Pattern, items: seq<Json>, depth: nat)
    decreases items, 1
  {
    items == [] || (RigidItems(p, items[..|items| - 1], depth) && Rigid(p, items[|items| - 1], depth))
  }

  /** No array that the redaction copies, because it stands directly in another one, has anything to hide. */
  predicate GuardedFields(p: Pattern, fs: seq<Field>, depth: nat)
    decreases fs, 1
  {
    fs == [] ||
    var last := fs[|fs| - 1];
    && GuardedFields(p, fs[..|fs| - 1], depth)
    && (last.key == PROTO || p(last.key) || depth >= 5 || Guarded(p, last.value, depth))
  }

  predicate Guarded(p: Pattern, j: Json, depth: nat)
    decreases j, 2
  {
    match j
    case Obj(fields) => GuardedFields(p, fields, depth + 1)
    case Arr(items) => GuardedItems(p, items, depth)
    case _ => true
  }

  predicate GuardedItems(p: Pattern, items: seq<Json>, depth: nat)
    decreases items, 1
  {
    items == [] || (GuardedItems(p, items[..|items| - 1], depth) && GuardedItem(p, items[|items| - 1], depth))
  }

  predicate GuardedItem(p: Pattern, j: Json, depth: nat)
    decreases j, 2
  {
    match j
    case Obj(fields) => GuardedFields(p, fields, depth + 1)
    case Arr(items) => RigidItems(p, items, depth)
    case _ => true
  }

  // A guarded body leaves the same trace as every body that agrees with it.

  lemma {:induction false} RigidFieldsAgree(p: Pattern, a: seq<Field>, b: seq<Field>, depth: nat)
    requires RigidFields(p, a, depth) && AgreeFields(p, a, b, depth)
    ensures a == b
    decreases a, 1
  {
    if a != [] && b != [] {
      RigidFieldsAgree(p, a[..|a| - 1], b[..|b| - 1], depth);
      RigidAgree(p, a[|a| - 1].value, b[|b| - 1].value, depth);
      assert a == a[..|a| - 1] + [a[|a| - 1]] && b == b[..|b| - 1] + [b[|b| - 1]];
    }
  }

  lemma {:induction false} RigidAgree(p: Pattern, a: Json, b: Json, depth: nat)
    requires Rigid(p, a, depth) && Agree(p, a, b, depth)
    ensures a == b
    decreases a, 2
  {
    if a.Obj? && b.Obj? {
      RigidFieldsAgree(p, a.fields, b.fields, depth + 1);
    } else if a.Arr? && b.Arr? {
      RigidItemsAgree(p, a.items, b.items, depth);
    }
  }

  lemma {:induction false} RigidItemsAgree(p: Pattern, a: seq<Json>, b: seq<Json>, depth: nat)
    requires RigidItems(p, a, depth) && AgreeItems(p, a, b, depth)
    ensures a == b
    decreases a, 1
  {
    if a != [] && b != [] {
      RigidItemsAgree(p, a[..|a| - 1], b[..|b| - 1], depth);
      RigidAgree(p, a[|a| - 1], b[|b| - 1], depth);
      assert a == a[..|a| - 1] + [a[|a| - 1]] && b == b[..|b| - 1] + [b[|b| - 1]];
    }
  }

  lemma {:induction false} AgreeIsVisible(p: Pattern, a: seq<Field>, b: seq<Field>, depth: nat)
    requires AgreeFields(p, a, b, depth) && GuardedFields(p, a, depth)
    ensures SameFields(p, a, b, depth)
    decreases a, 1
  {
    if a != [] && b != [] {
      AgreeIsVisible(p, a[..|a| - 1], b[..|b| - 1], depth);
      if a[|a| - 1].key == PROTO {
        RedactNoninterference(p, a[..|a| - 1], b[..|b| - 1], depth);
        RedactNoninterference(p, a, b, depth);
      } else if !Hidden(p, a[|a| - 1].key, depth) {
        AgreeIsVisibleIn(p, a[|a| - 1].value, b[|b| - 1].value, depth);
      }
    }
  }

  lemma {:induction false} AgreeIsVisibleIn(p: Pattern, a: Json, b: Json, depth: nat)
    requires Agree(p, a, b, depth) && Guarded(p, a, depth)
    ensures SameVisible(p, a, b, depth)
    decreases a, 2
  {
    if a.Obj? && b.Obj? {
      AgreeIsVisible(p, a.fields, b.fields, depth + 1);
    } else if a.Arr? && b.Arr? {
      AgreeIsVisibleItems(p, a.items, b.items, depth);
    }
  }

  lemma {:induction false} AgreeIsVisibleItems(p: Pattern, a: seq<Json>, b: seq<Json>, depth: nat)
    requires AgreeItems(p, a, b, depth) && GuardedItems(p, a, depth)
    ensures SameItems(p, a, b, depth)
    decreases a, 1
  {
    if a != [] && b != [] {
      var x, y := a[|a| - 1], b[|b| - 1];
      AgreeIsVisibleItems(p, a[..|a| - 1], b[..|b| - 1], depth);
      if x.Obj? && y.Obj? {
        AgreeIsVisible(p, x.fields, y.fields, depth + 1);
      } else if x.Arr? && y.Arr? {
        RigidItemsAgree(p, x.items, y.items, depth);
      }
    }
  }

  // Any other body has a companion that agrees with it and leaves a different trace.

  lemma {:induction false} AgreeFieldsReflexive(p: Pattern, a: seq<Field>, depth: nat)
    ensures AgreeFields(p, a, a, depth)
    decreases a, 1
  {
    if a != [] {
      AgreeFieldsReflexive(p, a[..|a| - 1], depth);
      AgreeReflexive(p, a[|a| - 1].value, depth);
    }
  }

  lemma {:induction false} AgreeReflexive(p: Pattern, a: Json, depth: nat)
    ensures Agree(p, a, a, depth)
    decreases a, 2
  {
    if a.Obj? {
      AgreeFieldsReflexive(p, a.fields, depth + 1);
    } else if a.Arr? {
      AgreeItemsReflexive(p, a.items, depth);
    }
  }

  lemma {:induction false} AgreeItemsReflexive(p: Pattern, a: seq<Json>, depth: nat)
    ensures AgreeItems(p, a, a, depth)
    decreases a, 1
  {
    if a != [] {
      AgreeItemsReflexive(p, a[..|a| - 1], depth);
      AgreeReflexive(p, a[|a| - 1], depth);
    }
  }

  lemma AgreeFieldsLast(p: Pattern, a: seq<Field>, b: seq<Field>, x: Field, y: Field, depth: nat)
    requires AgreeFields(p, a, b, depth) && x.key == y.key && (p(x.key) || depth >= 5 || Agree(p, x.value, y.value, depth))
    ensures AgreeFields(p, a + [x], b + [y], depth)
  {
    assert (a + [x])[..|a|] == a && (b + [y])[..|b|] == b;
  }

  lemma AgreeItemsLast(p: Pattern, a: seq<Json>, b: seq<Json>, x: Json, y: Json, depth: nat)
    requires AgreeItems(p, a, b, depth) && Agree(p, x, y, depth)
    ensures AgreeItems(p, a + [x], b + [y], depth)
  {
    assert (a + [x])[..|a|] == a && (b + [y])[..|b|] == b;
  }

  lemma {:induction false} LooseFields(p: Pattern, a: seq<Field>, depth: nat) returns (b: seq<Field>)
    requires !RigidFields(p, a, depth)
    ensures AgreeFields(p, a, b, depth) && a != b
    decreases a, 1
  {
    var front, last := a[..|a| - 1], a[|a| - 1];
    assert a == front + [last];
    if !RigidFields(p, front, depth) {
      var c := LooseFields(p, front, depth);
      AgreeReflexive(p, last.value, depth);
      AgreeFieldsLast(p, front, c, last, last, depth);
      LastOf(front, last, c, last);
      b := c + [last];
    } else {
      var y;
      if p(last.key) || depth >= 5 {
        y := if last.value == Null then Bool(true) else Null;
      } else {
        y := Loose(p, last.value, depth);
      }
      AgreeFieldsReflexive(p, front, depth);
      AgreeFieldsLast(p, front, front, last, Field(last.key, y), depth);
      LastOf(front, last, front, Field(last.key, y));
      b := front + [Field(last.key, y)];
    }
  }

  lemma {:induction false} Loose(p: Pattern, a: Json, depth: nat) returns (b: Json)
    requires !Rigid(p, a, depth)
    ensures Agree(p, a, b, depth) && a != b
    decreases a, 2
  {
    if a.Obj? {
      var fields := LooseFields(p, a.fields, depth + 1);
      b := Obj(fields);
    } else {
      var items := LooseItems(p, a.items, depth);
      b := Arr(items);
    }
  }

  lemma {:induction false} LooseItems(p: Pattern, a: seq<Json>, depth: nat) returns (b: seq<Json>)
    requires !RigidItems(p, a, depth)
    ensures AgreeItems(p, a, b, depth) && a != b
    decreases a, 1
  {
    var front, last := a[..|a| - 1], a[|a| - 1];
    assert a == front + [last];
    if !RigidItems(p, front, depth) {
      var c := LooseItems(p, front, depth);
      AgreeReflexive(p, last, depth);
      AgreeItemsLast(p, front, c, last, last, depth);
      LastOf(front, last, c, last);
      b := c + [last];
    } else {
      var y := Loose(p, last, depth);
      AgreeItemsReflexive(p, front, depth);
      AgreeItemsLast(p, front, front, last, y, depth);
      LastOf(front, last, front, y);
      b := front + [y];
    }
  }

  lemma SameFieldsLast(p: Pattern, a: seq<Field>, b: seq<Field>, x: Field, y: Field, depth: nat)
    requires x.key == y.key
    ensures SameFields(p, a + [x], b + [y], depth) <==>
            SameFields(p, a, b, depth) && (x.key == PROTO || p(x.key) || depth >= 5 || SameVisible(p, x.value, y.value, depth))
  {
    assert (a + [x])[..|a|] == a && (b + [y])[..|b|] == b;
    if x.key == PROTO {
      RedactNoninterference(p, a, b, depth);
      RedactNoninterference(p, a + [x], b + [y], depth);
    }
  }

  lemma SameItemsLast(p: Pattern, a: seq<Json>, b: seq<Json>, x: Json, y: Json, depth: nat)
    ensures SameItems(p, a + [x], b + [y], depth) <==>
            SameItems(p, a, b, depth) && (if x.Obj? && y.Obj? then SameFields(p, x.fields, y.fields, depth + 1) else x == y)
  {
    assert (a + [x])[..|a|] == a && (b + [y])[..|b|] == b;
  }

  lemma {:induction false} UnguardedFields(p: Pattern, a: seq<Field>, depth: nat) returns (b: seq<Field>)
    requires !GuardedFields(p, a, depth)
    ensures AgreeFields(p, a, b, depth) && !SameFields(p, a, b, depth)
    decreases a, 1
  {
    var front, last := a[..|a| - 1], a[|a| - 1];
    assert a == front + [last];
    if !GuardedFields(p, front, depth) {
      var c := UnguardedFields(p, front, depth);
      AgreeReflexive(p, last.value, depth);
      AgreeFieldsLast(p, front, c, last, last, depth);
      SameFieldsLast(p, front, c, last, last, depth);
      b := c + [last];
    } else {
      var y := Unguarded(p, last.value, depth);
      AgreeFieldsReflexive(p, front, depth);
      AgreeFieldsLast(p, front, front, last, Field(last.key, y), depth);
      SameFieldsLast(p, front, front, last, Field(last.key, y), depth);
      b := front + [Field(last.key, y)];
    }
  }

  lemma {:induction false} Unguarded(p: Pattern, a: Json, depth: nat) returns (b: Json)
    requires !Guarded(p, a, depth)
    ensures Agree(p, a, b, depth) && !SameVisible(p, a, b, depth)
    decreases a, 2
  {
    if a.Obj? {
      var fields := UnguardedFields(p, a.fields, depth + 1);
      b := Obj(fields);
    } else {
      var items := UnguardedItems(p, a.items, depth);
      b := Arr(items);
    }
  }

  lemma {:induction false} UnguardedItems(p: Pattern, a: seq<Json>, depth: nat) returns (b: seq<Json>)
    requires !GuardedItems(p, a, depth)
    ensures AgreeItems(p, a, b, depth) && !SameItems(p, a, b, depth)
    decreases a, 1
  {
    var front, last := a[..|a| - 1], a[|a| - 1];
    assert a == front + [last];
    if !GuardedItems(p, front, depth) {
      var c := UnguardedItems(p, front, depth);
      AgreeReflexive(p, last, depth);
      AgreeItemsLast(p, front, c, last, last, depth);
      SameItemsLast(p, front, c, last, last, depth);
      b := c + [last];
    } else {
      var y := UnguardedItem(p, last, depth);
      AgreeItemsReflexive(p, front, depth);
      AgreeItemsLast(p, front, front, last, y, depth);
      SameItemsLast(p, front, front, last, y, depth);
      b := front + [y];
    }
  }

  lemma {:induction false} UnguardedItem(p: Pattern, a: Json, depth: nat) returns (b: Json)
    requires !GuardedItem(p, a, depth)
    ensures Agree(p, a, b, depth)
    ensures if a.Obj? && b.Obj? then !SameFields(p, a.fields, b.fields, depth + 1) else a != b
    decreases a, 2
  {
    if a.Obj? {
      var fields := UnguardedFields(p, a.fields, depth + 1);
      b := Obj(fields);
    } else {
      var items := LooseItems(p, a.items, depth);
      b := Arr(items);
    }
  }

  /**
    When hidden values do not matter. A body leaves the same trace as every body that
    agrees with it off the hidden values exactly when it is guarded: inside an array
    that stands directly in another array it hides nothing.
  */
  lemma HiddenValuesDoNotMatterIff(p: Pattern, a: seq<Field>, depth: nat)
    ensures (forall b :: AgreeFields(p, a, b, depth) ==> Redact(p, a, depth) == Redact(p, b, depth)) <==> GuardedFields(p, a, depth)
  {
    if GuardedFields(p, a, depth) {
      forall b | AgreeFields(p, a, b, depth) ensures Redact(p, a, depth) == Redact(p, b, depth) {
        AgreeIsVisible(p, a, b, depth);
        RedactNoninterference(p, a, b, depth);
      }
    } else {
      var b := UnguardedFields(p, a, depth);
      RedactNoninterference(p, a, b, depth);
    }
  }

  /** The same of what is recorded for a request. */
  lemma HiddenValuesDoNotMatter(p: Pattern, a: seq<Field>)
    ensures (forall b :: AgreeFields(p, a, b, 0) ==> SanitizeBody(p, Some(Obj(a))) == SanitizeBody(p, Some(Obj(b))))
            <==> GuardedFields(p, a, 0)
  {
    HiddenValuesDoNotMatterIff(p, a, 0);
    if GuardedFields(p, a, 0) {
    } else {
      var b := UnguardedFields(p, a, 0);
      RedactNoninterference(p, a, b, 0);
      assert Redact(p, a, 0) != Redact(p, b, 0);
    }
  }

  lemma AgreeSingleton(p: Pattern, x: Json, y: Json, depth: nat)
    requires Agree(p, x, y, depth)
    ensures AgreeItems(p, [x], [y], depth)
  {
    assert [x][..0] == [y][..0] == [];
  }

  /** An array inside an array is copied as it is, and a secret in it reaches the log. */
  lemma NestedArrayLeaks(p: Pattern, list: string, secret: string, x: string, y: string)
    requires !p(list) && list != PROTO && p(secret) && x != y
    ensures var a := [Field(list, Arr([Arr([Obj([Field(secret, Str(x))])])]))];
            var b := [Field(list, Arr([Arr([Obj([Field(secret, Str(y))])])]))];
            && AgreeFields(p, a, b, 0)
            && SanitizeBody(p, Some(Obj(a))) != SanitizeBody(p, Some(Obj(b)))
  {
    var sa, sb := [Field(secret, Str(x))], [Field(secret, Str(y))];
    var a, b := [Field(list, Arr([Arr([Obj(sa)])]))], [Field(list, Arr([Arr([Obj(sb)])]))];
    AgreeFieldsLast(p, [], [], Field(secret, Str(x)), Field(secret, Str(y)), 1);
    assert [] + sa == sa && [] + sb == sb;
    assert Agree(p, Obj(sa), Obj(sb), 0);
    AgreeSingleton(p, Obj(sa), Obj(sb), 0);
    AgreeSingleton(p, Arr([Obj(sa)]), Arr([Obj(sb)]), 0);
    assert Agree(p, a[0].value, b[0].value, 0);
    assert sa[0] != sb[0];
    assert [Obj(sa)][0] != [Obj(sb)][0];
    assert !SameItems(p, [Arr([Obj(sa)])], [Arr([Obj(sb)])], 0);
    assert !SameVisible(p, a[0].value, b[0].value, 0);
    RedactNoninterference(p, a, b, 0);
  }

  // ---- keys ----

  function Keys(fs: seq<Field>): seq<string> {
    if fs == [] then [] else Keys(fs[..|fs| - 1]) + [fs[|fs| - 1].key]
  }

  function WithoutProto(keys: seq<string>): seq<string> {
    if keys == [] then [] else
      var rest := WithoutProto(keys[..|keys| - 1]);
      if keys[|keys| - 1] == PROTO then rest else rest + [keys[|keys| - 1]]
  }

  /** Of one object: the list of its keys without `__proto__`. */
  lemma {:induction false} KeptKeys(p: Pattern, src: seq<Field>, out: seq<Field>, depth: nat)
    requires Masks(p, src, out, depth)
    ensures Keys(out) == WithoutProto(Keys(src))
  {
    if src != [] {
      var front := src[..|src| - 1];
      assert Keys(src)[..|Keys(src)| - 1] == Keys(front);
      if src[|src| - 1].key == PROTO {
        KeptKeys(p, front, out, depth);
      } else {
        KeptKeys(p, front, out[..|out| - 1], depth);
      }
    }
  }

  lemma {:induction false} WithoutProtoIsIdentity(keys: seq<string>)
    ensures |WithoutProto(keys)| <= |keys|
    ensures WithoutProto(keys) == keys <==> PROTO !in keys
  {
    if keys != [] {
      var front, last := keys[..|keys| - 1], keys[|keys| - 1];
      WithoutProtoIsIdentity(front);
      assert keys == front + [last];
      if last != PROTO {
        LastOf(WithoutProto(front), last, front, last);
      }
    }
  }

  /** So the keys survive exactly when none of them is `__proto__`. */
  lemma KeysSurviveIff(p: Pattern, source: seq<Field>, depth: nat)
    ensures Keys(Redact(p, source, depth)) == Keys(source) <==> PROTO !in Keys(source)
  {
    RedactMasksIff(p, source, Redact(p, source, depth), depth);
    KeptKeys(p, source, Redact(p, source, depth), depth);
    WithoutProtoIsIdentity(Keys(source));
  }

  // ---- depth ----

  function Max(a: nat, b: nat): nat {
    if a > b then a else b
  }

  /** How many objects are nested below the one with these fields. */
  function Nesting(fs: seq<Field>): nat
    decreases fs, 1
  {
    if fs == [] then 0 else Max(Nesting(fs[..|fs| - 1]), NestingOf(fs[|fs| - 1].value))
  }

  function NestingOf(j: Json): nat
    decreases j, 2
  {
    match j
    case Obj(fields) => 1 + Nesting(fields)
    case Arr(items) => NestingIn(items)
    case _ => 0
  }

  function NestingIn(items: seq<Json>): nat
    decreases items, 1
  {
    if items == [] then 0 else Max(NestingIn(items[..|items| - 1]), NestingOf(items[|items| - 1]))
  }

  /** Arrays that are copied because they stand directly in another array fit under the limit where they stand. */
  predicate ShallowFields(p: Pattern, fs: seq<Field>, depth: nat)
    decreases fs, 1
  {
    fs == [] ||
    var last := fs[|fs| - 1];
    && ShallowFields(p, fs[..|fs| - 1], depth)
    && (last.key == PROTO || p(last.key) || depth >= 5 || Shallow(p, last.value, depth))
  }

  predicate Shallow(p: Pattern, j: Json, depth: nat)
    decreases j, 2
  {
    match j
    case Obj(fields) => ShallowFields(p, fields, depth + 1)
    case Arr(items) => ShallowItems(p, items, depth)
    case _ => true
  }

  predicate ShallowItems(p: Pattern, items: seq<Json>, depth: nat)
    decreases items, 1
  {
    items == [] ||
    var last := items[|items| - 1];
    && ShallowItems(p, items[..|items| - 1], depth)
    && match last
       case Obj(fields) => ShallowFields(p, fields, depth + 1)
       case Arr(inner) => NestingIn(inner) + depth <= MAX_REDACTION_DEPTH
       case _ => true
  }

  /** The output nests objects no deeper than the limit exactly when no copied array does. */
  lemma {:induction false} RedactBoundsNesting(p: Pattern, source: seq<Field>, depth: nat)
    requires depth <= MAX_REDACTION_DEPTH
    ensures Nesting(Redact(p, source, depth)) + depth <= MAX_REDACTION_DEPTH <==> ShallowFields(p, source, depth)
    decreases source, 1
  {
    if source != [] {
      var last := source[|source| - 1];
      RedactBoundsNesting(p, source[..|source| - 1], depth);
      EntryBoundsNesting(p, last.key, last.value, depth);
      var r := Redact(p, source, depth);
      if last.key != PROTO {
        assert r[..|r| - 1] == Redact(p, source[..|source| - 1], depth);
      }
    }
  }

  lemma {:induction false} EntryBoundsNesting(p: Pattern, key: string, value: Json, depth: nat)
    requires depth <= MAX_REDACTION_DEPTH
    ensures NestingOf(RedactEntry(p, key, value, depth)) + depth <= MAX_REDACTION_DEPTH <==> p(key) || depth >= 5 || Shallow(p, value, depth)
    decreases value, 2
  {
    if !p(key) && depth < 5 {
      if value.Obj? {
        RedactBoundsNesting(p, value.fields, depth + 1);
        assert RedactEntry(p, key, value, depth) == Obj(Redact(p, value.fields, depth + 1));
      } else if value.Arr? {
        ItemsBoundNesting(p, value.items, depth);
        assert RedactEntry(p, key, value, depth) == Arr(RedactItems(p, value.items, depth));
      }
    }
  }

  lemma {:induction false} ItemsBoundNesting(p: Pattern, items: seq<Json>, depth: nat)
    requires depth < MAX_REDACTION_DEPTH
    ensures NestingIn(RedactItems(p, items, depth)) + depth <= MAX_REDACTION_DEPTH <==> ShallowItems(p, items, depth)
    decreases items, 1
  {
    if items != [] {
      ItemsBoundNesting(p, items[..|items| - 1], depth);
      if items[|items| - 1].Obj? {
        RedactBoundsNesting(p, items[|items| - 1].fields, depth + 1);
      }
      var r := RedactItems(p, items, depth);
      assert r[..|r| - 1] == RedactItems(p, items[..|items| - 1], depth);
    }
  }

  /** `n` objects, one in the other. */
  function Deep(n: nat): Json {
    if n == 0 then Null else Obj([Field("", Deep(n - 1))])
  }

  lemma {:induction false} DeepNests(n: nat)
    ensures NestingOf(Deep(n)) == n
  {
    if n > 0 {
      var fs := [Field("", Deep(n - 1))];
      DeepNests(n - 1);
      assert fs[..0] == [] && Nesting(fs) == Max(Nesting(fs[..0]), NestingOf(Deep(n - 1)));
      assert Deep(n) == Obj(fs);
    }
  }

  /** In an array inside an array any depth comes through. */
  lemma NestedArrayKeepsDepth(p: Pattern, list: string, n: nat)
    requires !p(list) && list != PROTO
    ensures Nesting(Redact(p, [Field(list, Arr([Arr([Deep(n)])]))], 0)) == n
  {
    var inner := Arr([Deep(n)]);
    var fs := [Field(list, Arr([inner]))];
    DeepNests(n);
    assert [Deep(n)][..0] == [] && [inner][..0] == [] && fs[..0] == [];
    assert RedactItems(p, [inner], 0) == [inner];
    assert Redact(p, fs, 0) == fs;
    assert NestingIn([Deep(n)]) == n && NestingIn([inner]) == n;
  }

  // ---- redacting twice ----

  /** Redacting the output again changes nothing. */
  lemma {:induction false} RedactTwice(p: Pattern, source: seq<Field>, depth: nat)
    ensures Redact(p, Redact(p, source, depth), depth) == Redact(p, source, depth)
    decreases source, 1
  {
    if source != [] {
      var last := source[|source| - 1];
      RedactTwice(p, source[..|source| - 1], depth);
      EntryTwice(p, last.key, last.value, depth);
      var r := Redact(p, source, depth);
      if last.key != PROTO {
        assert r[..|r| - 1] == Redact(p, source[..|source| - 1], depth);
      }
    }
  }

  lemma {:induction false} EntryTwice(p: Pattern, key: string, value: Json, depth: nat)
    ensures RedactEntry(p, key, RedactEntry(p, key, value, depth), depth) == RedactEntry(p, key, value, depth)
    decreases value, 2
  {
    if value.Obj? {
      RedactTwice(p, value.fields, depth + 1);
    } else if value.Arr? {
      ItemsTwice(p, value.items, depth);
    }
  }

  lemma {:induction false} ItemsTwice(p: Pattern, items: seq<Json>, depth: nat)
    ensures RedactItems(p, RedactItems(p, items, depth), depth) == RedactItems(p, items, depth)
    decreases items, 1
  {
    if items != [] {
      ItemsTwice(p, items[..|items| - 1], depth);
      if items[|items| - 1].Obj? {
        RedactTwice(p, items[|items| - 1].fields, depth + 1);
      }
      var r := RedactItems(p, items, depth);
      assert r[..|r| - 1] == RedactItems(p, items[..|items| - 1], depth);
    }
  }
}
