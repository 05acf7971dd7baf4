/**
  A view of a scaffolding template as a sequence of tokens: literal text and
  bracketed placeholders such as `[model]`. Rendering concatenates the tokens;
  instantiating replaces, all at once, every placeholder that has a value.
  Simultaneous instantiation is the reference against which the command's
  chain of `str_replace` calls is proved.
 */
module Templates {
  import opened PhpStrings

  datatype Token = Text(text: string) | Slot(placeholder: string)

  /** `[name]`: an opening bracket, a closing bracket, and neither in between. */
  predicate IsPlaceholder(p: string)
  {
    && |p| >= 2
    && p[0] == '['
    && p[|p| - 1] == ']'
    && forall i :: 0 < i < |p| - 1 ==> p[i] != '[' && p[i] != ']'
  }

  /** A name without brackets, put between brackets, is a placeholder. */
  lemma Bracketed(name: string)
    requires '[' !in name && ']' !in name
    ensures IsPlaceholder("[" + name + "]")
  {
    var p := "[" + name + "]";
    forall i | 0 < i < |p| - 1
      ensures p[i] != '[' && p[i] != ']'
    {
      assert p[i] == name[i - 1];
    }
  }

  /** Text that cannot start a placeholder. */
  predicate Plain(s: string)
  {
    '[' !in s
  }

  predicate WellFormedToken(t: Token)
  {
    match t
    case Text(s) => Plain(s)
    case Slot(p) => IsPlaceholder(p)
  }

  /** Literal text is plain and every slot is a placeholder. */
  predicate WellFormed(ts: seq<Token>)
  {
    forall i :: 0 <= i < |ts| ==> WellFormedToken(ts[i])
  }

  function TokenText(t: Token): string
  {
    match t
    case Text(s) => s
    case Slot(p) => p
  }

  /** The template text the tokens spell out. */
  function Render(ts: seq<Token>): string
  {
    if |ts| == 0 then "" else TokenText(ts[0]) + Render(ts[1..])
  }

  function FillToken(t: Token, values: map<string, string>): Token
  {
    if t.Slot? && t.placeholder in values then Text(values[t.placeholder]) else t
  }

  /** Every slot whose placeholder has a value becomes that value, simultaneously. */
  function Instantiate(ts: seq<Token>, values: map<string, string>): seq<Token>
  {
    seq(|ts|, i requires 0 <= i < |ts| => FillToken(ts[i], values))
  }

  // ---------------------------------------------------------------------
  // One str_replace over a rendered template
  // ---------------------------------------------------------------------

  /**
    `str_replace` passes over a prefix in which the search string's first
    character does not appear.
   */
  lemma {:induction false} StrReplaceSkipsPrefix(search: string, replace: string, u: string, v: string)
    requires |search| > 0 && search[0] !in u
    ensures StrReplace(search, replace, u + v) == u + StrReplace(search, replace, v)
    decreases |u|
  {
    if |u| > 0 {
      var s := u + v;
      assert s[0] == u[0];
      if |s| < |search| {
        assert |v| < |search|;
      } else {
        assert s[..|search|][0] == u[0];
        assert s[1..] == u[1..] + v;
        StrReplaceSkipsPrefix(search, replace, u[1..], v);
        assert u == [u[0]] + u[1..];
      }
    } else {
      assert u + v == v;
    }
  }

  /** A text starting with one placeholder does not start with a different one. */
  lemma PlaceholderNoMatch(p: string, q: string, rest: string)
    requires IsPlaceholder(p) && IsPlaceholder(q) && p != q
    requires |p| <= |q + rest|
    ensures (q + rest)[..|p|] != p
  {
    var s := q + rest;
    if |p| < |q| {
      assert s[..|p|][|p| - 1] == q[|p| - 1] != p[|p| - 1];
    } else if |p| == |q| {
      assert s[..|p|] == q;
    } else {
      assert s[..|p|][|q| - 1] == q[|q| - 1] != p[|q| - 1];
    }
  }

  /** `str_replace` replaces an occurrence at the very start and goes on after it. */
  lemma StrReplaceAtStart(p: string, v: string, rest: string)
    requires |p| > 0
    ensures StrReplace(p, v, p + rest) == v + StrReplace(p, v, rest)
  {
    var s := p + rest;
    assert s[..|p|] == p;
    assert s[|p|..] == rest;
  }

  /** After its opening bracket, a placeholder holds no other opening bracket. */
  lemma PlaceholderTail(q: string)
    requires IsPlaceholder(q)
    ensures '[' !in q[1..]
  {
    forall i | 0 <= i < |q| - 1
      ensures q[1..][i] != '['
    {
      assert q[1..][i] == q[i + 1];
    }
  }

  /** `str_replace` passes over a placeholder different from the one it looks for. */
  lemma StrReplaceOverOtherPlaceholder(q: string, p: string, v: string, rest: string)
    requires IsPlaceholder(q) && IsPlaceholder(p) && p != q
    ensures StrReplace(p, v, q + rest) == q + StrReplace(p, v, rest)
  {
    var s := q + rest;
    if |s| < |p| {
      assert |rest| < |p|;
    } else {
      PlaceholderNoMatch(p, q, rest);
      var inner := q[1..];
      PlaceholderTail(q);
      assert s[1..] == inner + rest;
      StrReplaceSkipsPrefix(p, v, inner, rest);
      assert StrReplace(p, v, s) == [q[0]] + (inner + StrReplace(p, v, rest));
      assert [q[0]] + inner == q;
    }
  }

  /**
    On a well-formed template, replacing one placeholder with `str_replace`
    is instantiating that placeholder: every slot holding it becomes the
    value, and nothing else changes, whatever the value is.
   */
  lemma {:induction false} StrReplaceInstantiates(ts: seq<Token>, p: string, v: string)
    requires WellFormed(ts) && IsPlaceholder(p)
    ensures StrReplace(p, v, Render(ts)) == Render(Instantiate(ts, map[p := v]))
    decreases |ts|
  {
    if |ts| > 0 {
      var m := map[p := v];
      var filled := Instantiate(ts, m);
      assert filled[0] == FillToken(ts[0], m);
      assert filled[1..] == Instantiate(ts[1..], m);
      assert WellFormedToken(ts[0]);
      StrReplaceInstantiates(ts[1..], p, v);
      match ts[0]
      case Text(text) => StrReplaceSkipsPrefix(p, v, text, Render(ts[1..]));
      case Slot(q) =>
        if q == p {
          StrReplaceAtStart(p, v, Render(ts[1..]));
        } else {
          StrReplaceOverOtherPlaceholder(q, p, v, Render(ts[1..]));
        }
    }
  }

  // ---------------------------------------------------------------------
  // Instantiation
  // ---------------------------------------------------------------------

  /**
    Instantiating twice is instantiating once with both value maps, the first
    map winning where both name a placeholder (its slots are already gone).
   */
  lemma InstantiateTwice(ts: seq<Token>, first: map<string, string>, second: map<string, string>)
    ensures Instantiate(Instantiate(ts, first), second) == Instantiate(ts, second + first)
  {
  }

  /** Plain values keep a template well-formed. */
  lemma InstantiateWellFormed(ts: seq<Token>, values: map<string, string>)
    requires WellFormed(ts)
    requires forall p :: p in values ==> Plain(values[p])
    ensures WellFormed(Instantiate(ts, values))
  {
    forall i | 0 <= i < |ts|
      ensures WellFormedToken(Instantiate(ts, values)[i])
    {
      assert WellFormedToken(ts[i]);
    }
  }

  /**
    One more `str_replace` on a template already instantiated with plain
    values instantiates one more placeholder; the earlier values win where
    both name the same placeholder, since those slots are already gone.
   */
  lemma StrReplaceAfterInstantiate(ts: seq<Token>, values: map<string, string>, p: string, v: string)
    requires WellFormed(ts) && IsPlaceholder(p)
    requires forall q :: q in values ==> Plain(values[q])
    ensures StrReplace(p, v, Render(Instantiate(ts, values)))
         == Render(Instantiate(ts, map[p := v] + values))
  {
    InstantiateWellFormed(ts, values);
    StrReplaceInstantiates(Instantiate(ts, values), p, v);
    InstantiateTwice(ts, values, map[p := v]);
  }

  /** A well-formed template without slots renders to plain text. */
  lemma {:induction false} RenderWithoutSlots(ts: seq<Token>)
    requires WellFormed(ts)
    requires forall i :: 0 <= i < |ts| ==> ts[i].Text?
    ensures Plain(Render(ts))
    decreases |ts|
  {
    if |ts| > 0 {
      assert WellFormedToken(ts[0]);
      RenderWithoutSlots(ts[1..]);
    }
  }

  /** Filling every slot of a well-formed template with plain text leaves plain text. */
  lemma InstantiateRendersPlain(ts: seq<Token>, values: map<string, string>)
    requires WellFormed(ts)
    requires forall p :: p in values ==> Plain(values[p])
    requires forall i :: 0 <= i < |ts| && ts[i].Slot? ==> ts[i].placeholder in values
    ensures Plain(Render(Instantiate(ts, values)))
  {
    var filled := Instantiate(ts, values);
    InstantiateWellFormed(ts, values);
    forall i | 0 <= i < |filled|
      ensures filled[i].Text?
    {
      assert filled[i] == FillToken(ts[i], values);
    }
    RenderWithoutSlots(filled);
  }

  /** Plain text followed by one placeholder holds no other placeholder. */
  lemma PlainThenPlaceholder(front: string, q: string, p: string)
    requires Plain(front) && IsPlaceholder(q) && IsPlaceholder(p) && p != q
    ensures !Occurs(p, front + q)
  {
    var s := front + q;
    forall k | 0 <= k <= |s|
      ensures !OccursAt(p, s, k)
    {
      if k + |p| <= |s| {
        var w := s[k..k + |p|];
        if k < |front| {
          assert w[0] == front[k] != p[0];
        } else if k > |front| {
          assert w[0] == q[k - |front|] != p[0];
        } else {
          assert w == (q + "")[..|p|];
          PlaceholderNoMatch(p, q, "");
        }
      }
    }
  }

  /** An occurrence at or after the end of `front` is an occurrence in `rest`. */
  lemma OccursAfterFront(p: string, front: string, rest: string, k: int)
    requires OccursAt(p, front + rest, k) && k >= |front|
    ensures OccursAt(p, rest, k - |front|)
  {
    assert (front + rest)[k..k + |p|] == rest[k - |front|..k - |front| + |p|];
  }

  /** A placeholder cannot start inside a token that is not a slot holding it. */
  lemma NoMatchInsideToken(t: Token, p: string, rest: string, k: int)
    requires WellFormedToken(t) && IsPlaceholder(p) && t != Slot(p)
    requires 0 <= k < |TokenText(t)|
    ensures !OccursAt(p, TokenText(t) + rest, k)
  {
    var s := TokenText(t) + rest;
    if k + |p| <= |s| {
      match t
      case Text(x) =>
        assert s[k..k + |p|][0] == x[k];
      case Slot(q) =>
        if k == 0 {
          PlaceholderNoMatch(p, q, rest);
        } else {
          assert s[k..k + |p|][0] == q[k];
        }
    }
  }

  /**
    A placeholder that no slot of a well-formed template holds does not occur
    in the rendered text: it cannot start inside plain text nor inside another
    placeholder.
   */
  lemma {:induction false} RenderWithoutSlot(ts: seq<Token>, p: string)
    requires WellFormed(ts) && IsPlaceholder(p)
    requires forall i :: 0 <= i < |ts| ==> ts[i] != Slot(p)
    ensures !Occurs(p, Render(ts))
    decreases |ts|
  {
    if |ts| > 0 {
      RenderWithoutSlot(ts[1..], p);
      assert WellFormedToken(ts[0]);
      var front := TokenText(ts[0]);
      var rest := Render(ts[1..]);
      forall k | 0 <= k <= |front + rest|
        ensures !OccursAt(p, front + rest, k)
      {
        if k < |front| {
          NoMatchInsideToken(ts[0], p, rest, k);
        } else if OccursAt(p, front + rest, k) {
          OccursAfterFront(p, front, rest, k);
        }
      }
    }
  }
}
