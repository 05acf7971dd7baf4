/**
  The PHP string primitives the repository scaffolding command relies on:
  `str_replace` with one search string, `explode`, `implode` and `ucfirst`.
  Strings are sequences of characters while PHP works on bytes. What these
  functions search for or change here (a backslash, bracketed placeholders,
  `a`..`z`) is ASCII, and an ASCII byte never occurs inside a multi-byte
  UTF-8 sequence, so on UTF-8 text the two views agree.
 */
module PhpStrings {

  /** `pat` occurs in `s` at index `k`. */
  predicate OccursAt(pat: string, s: string, k: int)
  {
    0 <= k && k + |pat| <= |s| && s[k..k + |pat|] == pat
  }

  /** `pat` occurs somewhere in `s`. */
  predicate Occurs(pat: string, s: string)
  {
    exists k :: 0 <= k <= |s| && OccursAt(pat, s, k)
  }

  /**
    `str_replace($search, $replace, $subject)`: scans `subject` from left to
    right and replaces every non-overlapping occurrence of `search`; the
    inserted text is not scanned again. An empty search leaves the subject as
    it is.
   */
  function StrReplace(search: string, replace: string, subject: string): string
    decreases |subject|
  {
    if |search| == 0 || |subject| < |search| then subject
    else if subject[..|search|] == search then replace + StrReplace(search, replace, subject[|search|..])
    else [subject[0]] + StrReplace(search, replace, subject[1..])
  }

  /**
    `explode($separator, $s)`: the pieces of `s` between the non-overlapping
    occurrences of `separator`, found from left to right. There is always at
    least one piece; PHP refuses an empty separator.
   */
  function Explode(separator: string, s: string): (pieces: seq<string>)
    requires |separator| > 0
    ensures |pieces| >= 1
    decreases |s|
  {
    if |s| < |separator| then [s]
    else if s[..|separator|] == separator then [""] + Explode(separator, s[|separator|..])
    else
      var rest := Explode(separator, s[1..]);
      [[s[0]] + rest[0]] + rest[1..]
  }

  /** `implode($glue, $pieces)`: the pieces with `glue` between neighbours. */
  function Implode(glue: string, pieces: seq<string>): string
  {
    if |pieces| == 0 then ""
    else if |pieces| == 1 then pieces[0]
    else pieces[0] + glue + Implode(glue, pieces[1..])
  }

  /** PHP's locale-independent upper-casing of one byte: only `a`..`z` change. */
  function ToUpper(c: char): (u: char)
    ensures !('a' <= u <= 'z')
    ensures 'a' <= c <= 'z' ==> u as int == c as int - 32
    ensures !('a' <= c <= 'z') ==> u == c
  {
    if 'a' <= c <= 'z' then (c as int - 32) as char else c
  }

  /** `ucfirst($s)`: upper-cases the first character and nothing else. */
  function UcFirst(s: string): (r: string)
    ensures |r| == |s|
    ensures forall i :: 1 <= i < |s| ==> r[i] == s[i]
    ensures |s| > 0 ==> r[0] == ToUpper(s[0]) && !('a' <= r[0] <= 'z')
  {
    if |s| == 0 then s else [ToUpper(s[0])] + s[1..]
  }

  /** Applying `ucfirst` twice is the same as applying it once. */
  lemma UcFirstIdempotent(s: string)
    ensures UcFirst(UcFirst(s)) == UcFirst(s)
  {
  }

  // ---------------------------------------------------------------------
  // Lemmas about str_replace, explode and implode
  // ---------------------------------------------------------------------

  /** Gluing a character onto the front of the first piece. */
  lemma ImplodeFrontChar(glue: string, c: char, pieces: seq<string>)
    requires |pieces| >= 1
    ensures Implode(glue, [[c] + pieces[0]] + pieces[1..]) == [c] + Implode(glue, pieces)
  {
    var ps := [[c] + pieces[0]] + pieces[1..];
    if |pieces| > 1 {
      assert ps[1..] == pieces[1..];
    }
  }

  /** Splitting off the last piece of an implode. */
  lemma {:induction false} ImplodeLast(glue: string, pieces: seq<string>)
    requires |pieces| >= 2
    ensures Implode(glue, pieces) == Implode(glue, pieces[..|pieces| - 1]) + glue + pieces[|pieces| - 1]
  {
    if |pieces| > 2 {
      ImplodeLast(glue, pieces[1..]);
      assert pieces[1..][..|pieces| - 2] == pieces[..|pieces| - 1][1..];
    } else {
      assert pieces[..1] == [pieces[0]];
    }
  }

  /**
    `str_replace` is `implode` over `explode`: replacing every occurrence of
    `search` by `replace` is gluing the pieces between the occurrences back
    together with `replace`.
   */
  lemma {:induction false} StrReplaceIsImplodeExplode(search: string, replace: string, subject: string)
    requires |search| > 0
    ensures StrReplace(search, replace, subject) == Implode(replace, Explode(search, subject))
    decreases |subject|
  {
    if |subject| < |search| {
    } else if subject[..|search|] == search {
      var tail := subject[|search|..];
      StrReplaceIsImplodeExplode(search, replace, tail);
      var rest := Explode(search, tail);
      assert ([""] + rest)[1..] == rest;
    } else {
      StrReplaceIsImplodeExplode(search, replace, subject[1..]);
      ImplodeFrontChar(replace, subject[0], Explode(search, subject[1..]));
    }
  }

  /** Replacing a string by itself changes nothing. */
  lemma {:induction false} StrReplaceBySelf(search: string, subject: string)
    ensures StrReplace(search, search, subject) == subject
    decreases |subject|
  {
    if |search| == 0 || |subject| < |search| {
    } else if subject[..|search|] == search {
      StrReplaceBySelf(search, subject[|search|..]);
      assert subject == subject[..|search|] + subject[|search|..];
    } else {
      StrReplaceBySelf(search, subject[1..]);
      assert subject == [subject[0]] + subject[1..];
    }
  }

  /** `implode` undoes `explode` with the same separator. */
  lemma ImplodeExplode(separator: string, s: string)
    requires |separator| > 0
    ensures Implode(separator, Explode(separator, s)) == s
  {
    StrReplaceIsImplodeExplode(separator, separator, s);
    StrReplaceBySelf(separator, s);
  }

  /** An occurrence in the tail of a string is an occurrence in the string. */
  lemma OccursInTail(pat: string, s: string, k: int)
    requires |s| > 0 && OccursAt(pat, s[1..], k)
    ensures OccursAt(pat, s, k + 1)
  {
    assert s[1..][k..k + |pat|] == s[k + 1..k + 1 + |pat|];
  }

  /** The first piece of an explode is a prefix of the string. */
  lemma {:induction false} ExplodeFirstPiecePrefix(separator: string, s: string)
    requires |separator| > 0
    ensures |Explode(separator, s)[0]| <= |s|
    ensures Explode(separator, s)[0] == s[..|Explode(separator, s)[0]|]
    decreases |s|
  {
    if |s| >= |separator| && s[..|separator|] != separator {
      ExplodeFirstPiecePrefix(separator, s[1..]);
      var inner := Explode(separator, s[1..])[0];
      assert Explode(separator, s)[0] == [s[0]] + inner;
    }
  }

  /** The separator does not occur in the first piece of an explode. */
  lemma {:induction false} ExplodeFirstPiece(separator: string, s: string)
    requires |separator| > 0
    ensures !Occurs(separator, Explode(separator, s)[0])
    decreases |s|
  {
    if |s| >= |separator| && s[..|separator|] != separator {
      var first := Explode(separator, s)[0];
      var inner := Explode(separator, s[1..])[0];
      assert first == [s[0]] + inner;
      ExplodeFirstPiece(separator, s[1..]);
      ExplodeFirstPiecePrefix(separator, s);
      forall k | 0 <= k <= |first|
        ensures !OccursAt(separator, first, k)
      {
        if k == 0 {
          StartsWithoutPrefix(separator, s, first);
        } else if OccursAt(separator, first, k) {
          OccursInFrontTail(separator, s[0], inner, k);
        }
      }
    }
  }

  /** A prefix of `s` long enough to hold `pat` starts with it only if `s` does. */
  lemma StartsWithoutPrefix(pat: string, s: string, t: string)
    requires |pat| <= |s| && s[..|pat|] != pat
    requires |t| <= |s| && t == s[..|t|]
    ensures !OccursAt(pat, t, 0)
  {
    if |pat| <= |t| {
      assert t[..|pat|] == s[..|pat|];
    }
  }

  /** An occurrence past the first character of `[c] + t` is an occurrence in `t`. */
  lemma OccursInFrontTail(pat: string, c: char, t: string, k: int)
    requires k > 0 && OccursAt(pat, [c] + t, k)
    ensures OccursAt(pat, t, k - 1)
  {
    assert ([c] + t)[k..k + |pat|] == t[k - 1..k - 1 + |pat|];
  }

  /** No piece of an explode contains the separator. */
  lemma {:induction false} ExplodePiecesFree(separator: string, s: string)
    requires |separator| > 0
    ensures forall i :: 0 <= i < |Explode(separator, s)| ==> !Occurs(separator, Explode(separator, s)[i])
    decreases |s|
  {
    var pieces := Explode(separator, s);
    ExplodeFirstPiece(separator, s);
    if |s| < |separator| {
    } else if s[..|separator|] == separator {
      ExplodePiecesFree(separator, s[|separator|..]);
      forall i | 1 <= i < |pieces|
        ensures !Occurs(separator, pieces[i])
      {
        assert pieces[i] == Explode(separator, s[|separator|..])[i - 1];
      }
    } else {
      ExplodePiecesFree(separator, s[1..]);
      forall i | 1 <= i < |pieces|
        ensures !Occurs(separator, pieces[i])
      {
        assert pieces[i] == Explode(separator, s[1..])[i];
      }
    }
  }

  /** A string without the separator explodes into itself alone. */
  lemma {:induction false} ExplodeWithoutSeparator(separator: string, s: string)
    requires |separator| > 0 && !Occurs(separator, s)
    ensures Explode(separator, s) == [s]
    decreases |s|
  {
    if |s| < |separator| {
    } else if s[..|separator|] == separator {
      assert OccursAt(separator, s, 0);
      assert false;
    } else {
      if Occurs(separator, s[1..]) {
        var k :| 0 <= k <= |s[1..]| && OccursAt(separator, s[1..], k);
        OccursInTail(separator, s, k);
        assert false;
      }
      ExplodeWithoutSeparator(separator, s[1..]);
      assert [s[0]] + s[1..] == s;
    }
  }

  /** A string explodes into a single piece exactly when the separator does not occur in it. */
  lemma ExplodeSinglePiece(separator: string, s: string)
    requires |separator| > 0
    ensures |Explode(separator, s)| == 1 <==> !Occurs(separator, s)
  {
    if !Occurs(separator, s) {
      ExplodeWithoutSeparator(separator, s);
    }
    if |Explode(separator, s)| == 1 {
      ImplodeExplode(separator, s);
      ExplodePiecesFree(separator, s);
      assert Explode(separator, s)[0] == s;
    }
  }

  /** `str_replace` leaves a subject without the search string unchanged. */
  lemma StrReplaceWithoutOccurrence(search: string, replace: string, subject: string)
    requires !Occurs(search, subject)
    ensures StrReplace(search, replace, subject) == subject
  {
    if |search| > 0 {
      StrReplaceIsImplodeExplode(search, replace, subject);
      ExplodeWithoutSeparator(search, subject);
    }
  }

  /** A one-character string occurs exactly where that character does. */
  lemma OccursSingleChar(c: char, s: string)
    ensures Occurs([c], s) <==> c in s
  {
    if c in s {
      var k :| 0 <= k < |s| && s[k] == c;
      assert s[k..k + 1] == [c];
      assert OccursAt([c], s, k);
    }
    if Occurs([c], s) {
      var k :| 0 <= k <= |s| && OccursAt([c], s, k);
      assert s[k] == s[k..k + 1][0];
    }
  }

  /** Gluing text onto the first piece commutes with appending further pieces. */
  lemma GlueFront(x: string, front: seq<string>, back: seq<string>)
    requires |front| >= 1
    ensures [x + (front + back)[0]] + (front + back)[1..] == ([x + front[0]] + front[1..]) + back
  {
    assert (front + back)[1..] == front[1..] + back;
  }

  /**
    Exploding on one character distributes over a concatenation joined by
    that character.
   */
  lemma {:induction false} ExplodeJoined(c: char, a: string, b: string)
    ensures Explode([c], a + [c] + b) == Explode([c], a) + Explode([c], b)
    decreases |a|
  {
    var s := a + [c] + b;
    if |a| == 0 {
      assert s[..1] == [c];
      assert s[1..] == b;
    } else if a[0] == c {
      assert s[..1] == [c];
      assert s[1..] == a[1..] + [c] + b;
      ExplodeJoined(c, a[1..], b);
    } else {
      assert s[0] == a[0];
      assert s[..1] != [c];
      assert s[1..] == a[1..] + [c] + b;
      ExplodeJoined(c, a[1..], b);
      assert a[..1] != [c];
      GlueFront([a[0]], Explode([c], a[1..]), Explode([c], b));
    }
  }
}
