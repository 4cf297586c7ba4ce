/**
 Text keys of cyclic lists: the least joined text over all rotations and reversals. The texts of this
 model are ASCII, where the order by UTF-16 code units is the order by characters.
 */
module CyclicKeys {
  import opened Cycles
  import opened Text

  // ----- the order of texts

  predicate TextLe(a: string, b: string) {
    a == [] || (b != [] && (a[0] < b[0] || (a[0] == b[0] && TextLe(a[1..], b[1..]))))
  }

  /** Texts are compared at the first character in which they differ; a part of a text comes before it. */
  lemma {:induction false} FirstCharacterDecides(common: string, c: char, left: string, d: char, right: string)
    requires c != d
    ensures TextLe(common + [c] + left, common + [d] + right) <==> c < d
    ensures TextLe(common, common + [c] + left) && !TextLe(common + [c] + left, common)
  {
    var a, b := common + [c] + left, common + [d] + right;
    if common != [] {
      FirstCharacterDecides(common[1..], c, left, d, right);
      assert a[1..] == common[1..] + [c] + left && b[1..] == common[1..] + [d] + right;
    }
  }

  lemma {:induction false} TextLeIsTotal(a: string, b: string)
    ensures TextLe(a, b) || TextLe(b, a)
  {
    if a != [] && b != [] && a[0] == b[0] {
      TextLeIsTotal(a[1..], b[1..]);
    }
  }

  lemma {:induction false} TextLeIsTransitive(a: string, b: string, c: string)
    requires TextLe(a, b) && TextLe(b, c)
    ensures TextLe(a, c)
  {
    if a != [] && a[0] == b[0] == c[0] {
      TextLeIsTransitive(a[1..], b[1..], c[1..]);
    }
  }

  lemma {:induction false} TextLeIsAntisymmetric(a: string, b: string)
    requires TextLe(a, b) && TextLe(b, a)
    ensures a == b
  {
    if a != [] {
      TextLeIsAntisymmetric(a[1..], b[1..]);
      assert a == [a[0]] + a[1..] && b == [b[0]] + b[1..];
    }
  }

  /** `least` is one of the texts and comes before all of them. */
  ghost predicate IsLeastText(least: string, texts: seq<string>) {
    least in texts && forall text | text in texts :: TextLe(least, text)
  }

  function LeastText(texts: seq<string>): string
    requires texts != []
  {
    if |texts| == 1 then texts[0]
    else
      var least := LeastText(texts[..|texts| - 1]);
      var last := texts[|texts| - 1];
      if TextLe(least, last) then least else last
  }

  lemma {:induction false} LeastTextIsLeast(texts: seq<string>)
    requires texts != []
    ensures IsLeastText(LeastText(texts), texts)
  {
    var init, last := texts[..|texts| - 1], texts[|texts| - 1];
    assert texts == init + [last];
    if |texts| == 1 {
      TextLeIsTotal(last, last);
    } else {
      LeastTextIsLeast(init);
      TextLeIsTotal(LeastText(init), last);
      TextLeIsTotal(last, last);
      forall text | text in texts ensures TextLe(LeastText(texts), text) {
        if text in init && !TextLe(LeastText(init), last) {
          TextLeIsTransitive(last, LeastText(init), text);
        }
      }
    }
  }

  lemma LeastOfLonger(texts: seq<string>, i: nat)
    requires 0 < i < |texts|
    ensures var least := LeastText(texts[..i]);
            LeastText(texts[..i + 1]) == if TextLe(least, texts[i]) then least else texts[i]
  {
    assert texts[..i + 1][..i] == texts[..i];
  }

  lemma LeastTextIsUnique(a: string, b: string, texts: seq<string>, others: seq<string>)
    requires IsLeastText(a, texts) && IsLeastText(b, others) && forall text :: text in texts <==> text in others
    ensures a == b
  {
    TextLeIsAntisymmetric(a, b);
  }

  // ----- the key of a cycle

  /** The `position`-th token of a candidate: the list, reversed or not, read from `offset`. */
  function TokenIndex(n: nat, reversed: bool, offset: nat, position: nat): (index: nat)
    requires offset < n && position < n
    ensures index < n
  {
    var rotated := Wrap(n, offset + position);
    if reversed then n - 1 - rotated else rotated
  }

  function Candidate(tokens: seq<string>, reversed: bool, offset: nat): seq<string>
    requires offset < |tokens|
  {
    seq(|tokens|, position requires 0 <= position < |tokens| =>
      tokens[TokenIndex(|tokens|, reversed, offset, position)])
  }

  function CandidateText(tokens: seq<string>, reversed: bool, offset: nat): string
    requires offset < |tokens|
  {
    Join(Candidate(tokens, reversed, offset), ';')
  }

  /** The candidates in the order tried: all offsets forwards, then all offsets of the reversed list. */
  function CandidateTextAt(tokens: seq<string>, i: nat): string
    requires i < 2 * |tokens|
  {
    CandidateText(tokens, i >= |tokens|, if i < |tokens| then i else i - |tokens|)
  }

  function CandidateTexts(tokens: seq<string>): (texts: seq<string>)
    ensures |texts| == 2 * |tokens|
  {
    seq(2 * |tokens|, i requires 0 <= i < 2 * |tokens| => CandidateTextAt(tokens, i))
  }

  function CyclicKey(tokens: seq<string>): string {
    if tokens == [] then "" else LeastText(CandidateTexts(tokens))
  }

  /** Keeps the best candidate's direction and offset, and joins only the winner. */
  method CanonicalBidirectionalCyclicKey(tokens: seq<string>) returns (key: string)
    ensures key == CyclicKey(tokens)
    ensures tokens != [] ==> IsLeastText(key, CandidateTexts(tokens))
  {
    if tokens == [] {
      return "";
    }
    LeastTextIsLeast(CandidateTexts(tokens));
    var n := |tokens|;
    var best := BestCandidate(tokens);
    key := JoinCandidate(tokens, best >= n, if best < n then best else best - n);
  }

  /** The first of the least candidates, by a scan that keeps the best one so far. */
  method BestCandidate(tokens: seq<string>) returns (best: nat)
    requires tokens != []
    ensures best < 2 * |tokens| && CandidateTextAt(tokens, best) == LeastText(CandidateTexts(tokens))
  {
    ghost var texts := CandidateTexts(tokens);
    best := 0;
    for i := 1 to 2 * |tokens|
      invariant best < i
      invariant CandidateTextAt(tokens, best) == LeastText(texts[..i])
    {
      LeastOfLonger(texts, i);
      assert texts[i] == CandidateTextAt(tokens, i);
      if !TextLe(CandidateTextAt(tokens, best), CandidateTextAt(tokens, i)) {
        best := i;
      }
    }
    assert texts[..2 * |tokens|] == texts;
  }

  method JoinCandidate(tokens: seq<string>, reversed: bool, offset: nat) returns (key: string)
    requires offset < |tokens|
    ensures key == CandidateText(tokens, reversed, offset)
  {
    ghost var best := Candidate(tokens, reversed, offset);
    key := "";
    for position := 0 to |tokens|
      invariant key == Join(best[..position], ';')
    {
      JoinLonger(best[..position], best[position], ';');
      assert best[..position + 1] == best[..position] + [best[position]];
      if position > 0 {
        key := key + [';'];
      }
      key := key + tokens[TokenIndex(|tokens|, reversed, offset, position)];
    }
    assert best[..|tokens|] == best;
  }

  lemma {:induction false} JoinLonger(parts: seq<string>, last: string, separator: char)
    ensures Join(parts + [last], separator) == if parts == [] then last else Join(parts, separator) + [separator] + last
  {
    if parts == [] {
      assert parts + [last] == [last];
    } else {
      JoinLonger(parts[1..], last, separator);
      assert (parts + [last])[1..] == parts[1..] + [last];
    }
  }

  // ----- the key tells cycles apart up to rotation and reversal

  lemma CandidateIsVariant(tokens: seq<string>, reversed: bool, offset: nat)
    requires offset < |tokens|
    ensures Candidate(tokens, reversed, offset)
      == Variant(tokens, if reversed then |tokens| - 1 - offset else offset, !reversed)
  {
  }

  lemma CandidatesAreVariants(tokens: seq<string>, text: string)
    ensures text in CandidateTexts(tokens) <==>
      exists variant :: IsVariant(variant, tokens) && text == Join(variant, ';')
  {
    var n, texts := |tokens|, CandidateTexts(tokens);
    if text in texts {
      var i :| 0 <= i < |texts| && texts[i] == text;
      var reversed, offset := i >= n, if i < n then i else i - n;
      assert text == CandidateTextAt(tokens, i) == CandidateText(tokens, reversed, offset);
      CandidateIsVariant(tokens, reversed, offset);
      assert IsVariant(Candidate(tokens, reversed, offset), tokens);
    }
    forall variant | IsVariant(variant, tokens) && text == Join(variant, ';') ensures text in texts {
      var start, forward :| 0 <= start < n && variant == Variant(tokens, start, forward);
      var i := if forward then start else n + (n - 1 - start);
      CandidateIsVariant(tokens, i >= n, if i < n then i else i - n);
      assert texts[i] == CandidateTextAt(tokens, i) == text;
    }
  }

  lemma SameVariants<T>(a: seq<T>, b: seq<T>, variant: seq<T>)
    requires IsVariant(b, a)
    ensures IsVariant(variant, a) <==> IsVariant(variant, b)
  {
    var start, forward :| 0 <= start < |a| && b == Variant(a, start, forward);
    if IsVariant(variant, a) {
      var target, ahead :| 0 <= target < |a| && variant == Variant(a, target, ahead);
      var next := VariantFromVariant(a, start, forward, target, ahead);
    }
    if IsVariant(variant, b) {
      var next, ahead :| 0 <= next < |b| && variant == Variant(b, next, ahead);
      VariantOfVariant(a, start, forward, next, ahead);
    }
  }

  lemma KeyIsVariant(tokens: seq<string>) returns (variant: seq<string>)
    requires tokens != []
    ensures IsVariant(variant, tokens) && CyclicKey(tokens) == Join(variant, ';')
  {
    LeastTextIsLeast(CandidateTexts(tokens));
    CandidatesAreVariants(tokens, CyclicKey(tokens));
    variant :| IsVariant(variant, tokens) && CyclicKey(tokens) == Join(variant, ';');
  }

  lemma VariantItems<T>(variant: seq<T>, cycle: seq<T>)
    requires IsVariant(variant, cycle)
    ensures |variant| == |cycle| && forall k | 0 <= k < |variant| :: variant[k] in cycle
  {
  }

  /** Two lists of tokens have one key exactly when one is a rotation or reversal of the other. */
  lemma CyclicKeyIsComplete(a: seq<string>, b: seq<string>)
    requires Free(a, ';') && Free(b, ';')
    requires (forall i | 0 <= i < |a| :: a[i] != "") && (forall i | 0 <= i < |b| :: b[i] != "")
    ensures CyclicKey(a) == CyclicKey(b) <==> IsVariant(b, a) || (a == [] && b == [])
  {
    if IsVariant(b, a) {
      forall text ensures text in CandidateTexts(a) <==> text in CandidateTexts(b) {
        CandidatesAreVariants(a, text);
        CandidatesAreVariants(b, text);
        forall variant ensures IsVariant(variant, a) <==> IsVariant(variant, b) {
          SameVariants(a, b, variant);
        }
      }
      LeastTextIsLeast(CandidateTexts(a));
      LeastTextIsLeast(CandidateTexts(b));
      LeastTextIsUnique(CyclicKey(a), CyclicKey(b), CandidateTexts(a), CandidateTexts(b));
    } else if a == [] || b == [] {
      KeyIsNotEmpty(a);
      KeyIsNotEmpty(b);
    } else if CyclicKey(a) == CyclicKey(b) {
      SameKeyIsVariant(a, b);
    }
  }

  lemma KeyIsNotEmpty(tokens: seq<string>)
    requires forall i | 0 <= i < |tokens| :: tokens[i] != ""
    ensures CyclicKey(tokens) == "" <==> tokens == []
  {
    if tokens != [] {
      var variant := KeyIsVariant(tokens);
      VariantItems(variant, tokens);
      assert variant[0] in tokens;
      assert Join(variant, ';')[0] == variant[0][0];
    }
  }

  lemma SameKeyIsVariant(a: seq<string>, b: seq<string>)
    requires Free(a, ';') && Free(b, ';') && a != [] && b != [] && CyclicKey(a) == CyclicKey(b)
    ensures IsVariant(b, a)
  {
    var u := KeyIsVariant(a);
    var v := KeyIsVariant(b);
    VariantItems(u, a);
    VariantItems(v, b);
    JoinInjective(u, v, ';');
    SameVariants(a, u, b);
    WholeVariant(b);
    assert IsVariant(b, b);
    SameVariants(b, v, b);
  }
}
