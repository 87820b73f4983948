/** The whitelist partial-update builder shared by every PUT handler: walk
    the whitelist in order and keep each key the request body carries,
    together with the body's value for it; then apply the selected
    `column = value` assignments to a stored row, left to right, as the
    generated `UPDATE ... SET` does. */
module Fields {
  import opened Values

  /** A decoded JSON request object. */
  type Body = map<string, Value>

  /** One `column = value` assignment of an UPDATE statement. */
  type Field = (string, Value)

  /** `d.get(key, default)`. */
  function Get(body: map<string, Value>, key: string, default: Value): Value {
    if key in body then body[key] else default
  }

  function KeysOf(fields: seq<Field>): (keys: seq<string>)
    ensures |keys| == |fields|
    ensures forall i :: 0 <= i < |fields| ==> keys[i] == fields[i].0
  {
    seq(|fields|, i requires 0 <= i < |fields| => fields[i].0)
  }

  /** `a` can be obtained from `b` by deleting elements: it lists some of
      `b`'s elements in `b`'s order. */
  predicate IsSubseq(a: seq<string>, b: seq<string>)
    decreases |b|
  {
    || a == []
    || (b != [] && ((a[0] == b[0] && IsSubseq(a[1..], b[1..])) || IsSubseq(a, b[1..])))
  }

  /** The whitelisted keys the body carries. */
  function Supplied(allowed: seq<string>, body: Body): set<string> {
    set k | k in allowed && k in body
  }

  /** No whitelisted key is present: the handlers answer 422. */
  predicate NoneSupplied(allowed: seq<string>, body: Body) {
    forall k :: k in allowed ==> k !in body
  }

  /** The `for k in allowed: if k in data` loop: exactly the whitelisted keys
      present in the body, each with the body's value. */
  function Pick(allowed: seq<string>, body: Body): (fields: seq<Field>)
    ensures forall i :: 0 <= i < |fields| ==> fields[i].0 in body && fields[i].1 == body[fields[i].0]
    ensures forall k :: k in KeysOf(fields) <==> k in allowed && k in body
    ensures fields == [] <==> NoneSupplied(allowed, body)
  {
    if allowed == [] then []
    else
      var rest := Pick(allowed[1..], body);
      var k := allowed[0];
      assert forall j :: j in allowed <==> j == k || j in allowed[1..];
      if k in body then
        var fields := [(k, body[k])] + rest;
        assert forall j :: j in KeysOf(fields) <==> j == k || j in KeysOf(rest) by {
          assert KeysOf(fields) == [k] + KeysOf(rest);
        }
        fields
      else rest
  }

  /** The selected keys keep the whitelist's order. */
  lemma {:induction false} PickKeepsWhitelistOrder(allowed: seq<string>, body: Body)
    ensures IsSubseq(KeysOf(Pick(allowed, body)), allowed)
    decreases |allowed|
  {
    if allowed != [] {
      var k := allowed[0];
      var rest := Pick(allowed[1..], body);
      PickKeepsWhitelistOrder(allowed[1..], body);
      if k in body {
        assert Pick(allowed, body) == [(k, body[k])] + rest;
        var keys := KeysOf([(k, body[k])] + rest);
        assert keys[0] == k && keys[1..] == KeysOf(rest);
      } else {
        assert Pick(allowed, body) == rest;
      }
    }
  }

  /** The effect of `UPDATE ... SET k1=v1, k2=v2, ...` on one row's columns. */
  function Patch(cols: map<string, Value>, fields: seq<Field>): map<string, Value>
    decreases |fields|
  {
    if fields == [] then cols
    else Patch(cols[fields[0].0 := fields[0].1], fields[1..])
  }

  /** Reference meaning of a whitelisted update: every supplied whitelisted
      column takes the body's value, every other column keeps its value. */
  function Overlay(cols: map<string, Value>, allowed: seq<string>, body: Body): map<string, Value> {
    map c | c in cols.Keys + Supplied(allowed, body) ::
      if c in Supplied(allowed, body) then body[c] else cols[c]
  }

  /** Applying the builder's selection to a row yields the reference overlay. */
  lemma {:induction false} PatchPickIsOverlay(cols: map<string, Value>, allowed: seq<string>, body: Body)
    ensures Patch(cols, Pick(allowed, body)) == Overlay(cols, allowed, body)
    decreases |allowed|
  {
    if allowed == [] {
      assert Overlay(cols, allowed, body) == cols;
    } else {
      var k := allowed[0];
      var cols' := if k in body then cols[k := body[k]] else cols;
      PatchPickIsOverlay(cols', allowed[1..], body);
      OverlayFirstKey(cols, allowed, body);
      if k in body {
        var fields := [(k, body[k])] + Pick(allowed[1..], body);
        assert fields[0] == (k, body[k]) && fields[1..] == Pick(allowed[1..], body);
      }
    }
  }

  /** Overlaying a whitelist equals assigning its first key (when supplied)
      and overlaying the rest. */
  lemma OverlayFirstKey(cols: map<string, Value>, allowed: seq<string>, body: Body)
    requires allowed != []
    ensures var k := allowed[0];
      Overlay(cols, allowed, body)
      == Overlay(if k in body then cols[k := body[k]] else cols, allowed[1..], body)
  {
    var k := allowed[0];
    var cols' := if k in body then cols[k := body[k]] else cols;
    var rest := allowed[1..];
    assert Supplied(allowed, body) == (if k in body then {k} else {}) + Supplied(rest, body) by {
      assert forall j :: j in allowed <==> j == k || j in rest;
    }
    var a := Overlay(cols, allowed, body);
    var b := Overlay(cols', rest, body);
    assert a.Keys == b.Keys;
    forall c | c in a
      ensures a[c] == b[c]
    {
    }
  }

  /** What a whitelisted update does to the set of columns and to each column. */
  lemma OverlayColumns(cols: map<string, Value>, allowed: seq<string>, body: Body)
    ensures Overlay(cols, allowed, body).Keys == cols.Keys + Supplied(allowed, body)
    ensures forall c :: c in allowed && c in body ==> Overlay(cols, allowed, body)[c] == body[c]
    ensures forall c :: c in cols && c !in Supplied(allowed, body) ==> Overlay(cols, allowed, body)[c] == cols[c]
  {
  }
}
