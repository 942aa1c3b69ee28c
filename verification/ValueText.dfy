/** The texts of values that hold no object: one each. */
module ValueText {
  import opened JsExpr

  predicate IsPlain(v: Value)
    decreases v, 0
  {
    if v.Arr? then AllPlain(v.items) else !v.Obj?
  }

  predicate AllPlain(items: seq<Value>)
    decreases items
  {
    items == [] || (IsPlain(items[0]) && AllPlain(items[1..]))
  }

  /** As an element of an array it has no text. */
  predicate IsBlank(v: Value)
    decreases v, 0
  {
    if v.Arr? then |v.items| <= 1 && AllBlank(v.items) else IsNullish(v) || v == Str("")
  }

  predicate AllBlank(items: seq<Value>)
    decreases items
  {
    items == [] || (IsBlank(items[0]) && AllBlank(items[1..]))
  }

  lemma {:induction false} PlainAppend(front: seq<Value>, back: seq<Value>)
    ensures AllPlain(front + back) <==> AllPlain(front) && AllPlain(back)
    ensures AllBlank(front + back) <==> AllBlank(front) && AllBlank(back)
  {
    if front == [] {
      assert front + back == back;
    } else {
      assert (front + back)[0] == front[0] && (front + back)[1..] == front[1..] + back;
      PlainAppend(front[1..], back);
    }
  }

  lemma {:induction false} TextFixed(h: Host, v: Value, s: string, t: string)
    requires IsPlain(v) && Stringifies(h, v, s) && Stringifies(h, v, t)
    ensures s == t
    decreases v, 0
  {
    if v.Arr? {
      JoinFixed(h, v.items, s, t);
    }
  }

  lemma {:induction false} ItemFixed(h: Host, v: Value, s: string, t: string)
    requires IsPlain(v) && JoinsItem(h, v, s) && JoinsItem(h, v, t)
    ensures s == t
    decreases v, 1
  {
    if !IsNullish(v) {
      TextFixed(h, v, s, t);
    }
  }

  lemma {:induction false} JoinFixed(h: Host, items: seq<Value>, s: string, t: string)
    requires AllPlain(items) && Joins(h, items, s) && Joins(h, items, t)
    ensures s == t
    decreases items
  {
    if |items| == 1 {
      ItemFixed(h, items[0], s, t);
    } else if items != [] {
      var s0, s1 :| JoinsItem(h, items[0], s0) && Joins(h, items[1..], s1) && s == s0 + "," + s1;
      var t0, t1 :| JoinsItem(h, items[0], t0) && Joins(h, items[1..], t1) && t == t0 + "," + t1;
      ItemFixed(h, items[0], s0, t0);
      JoinFixed(h, items[1..], s1, t1);
    }
  }

  /** No text exactly when blank. */
  lemma {:induction false} BlankExact(h: Host, v: Value, s: string)
    requires h.Valid() && IsPlain(v) && JoinsItem(h, v, s)
    ensures s == "" <==> IsBlank(v)
  {
    if v.Arr? {
      assert Joins(h, v.items, s);
      if |v.items| == 1 {
        BlankExact(h, v.items[0], s);
        assert v.items[1..] == [] && (IsBlank(v) <==> IsBlank(v.items[0]) && AllBlank(v.items[1..]));
      } else if v.items != [] {
        var t, rest :| JoinsItem(h, v.items[0], t) && Joins(h, v.items[1..], rest) && s == t + "," + rest;
      }
    }
  }
}
