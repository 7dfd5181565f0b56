/** The key normaliser of src/core/api/DotaHeroAPI.ts: `toCamelCase` rewrites a
    snake_case key, `convertKeysToCamelCase` applies it to every object key of
    a JSON value, at every depth. */
module DotaHeroApi {
  import opened Wrappers
  import opened Json

  predicate IsAsciiLower(c: char) {
    'a' <= c <= 'z'
  }

  /** `String.prototype.toUpperCase` on one ASCII lower-case letter. */
  function AsciiUpper(c: char): (u: char)
    requires IsAsciiLower(c)
    ensures 'A' <= u <= 'Z' && u as int == c as int - 32
  {
    (c as int - 32) as char
  }

  /** Position `i` of `s` starts a match of the pattern `/_([a-z])/`. */
  predicate MatchAt(s: string, i: int) {
    0 <= i && i + 1 < |s| && s[i] == '_' && IsAsciiLower(s[i + 1])
  }

  /** `s` holds no underscore followed by an ASCII lower-case letter. */
  predicate IsCamel(s: string) {
    forall i | 0 <= i < |s| :: !MatchAt(s, i)
  }

  /** `toCamelCase`: `str.replace(/_([a-z])/g, (m, p1) => p1.toUpperCase())`.
      The global replace scans left to right and never reuses a character of
      a previous match. */
  function ToCamelCase(s: string): (r: string)
    ensures |r| <= |s|
  {
    if MatchAt(s, 0) then [AsciiUpper(s[1])] + ToCamelCase(s[2..])
    else if s == [] then []
    else [s[0]] + ToCamelCase(s[1..])
  }

  /** The number of positions where the pattern matches. */
  function MatchCount(s: string): nat {
    if |s| < 2 then 0
    else (if MatchAt(s, 0) then 1 else 0) + MatchCount(s[1..])
  }

  lemma MatchAtTail(s: string, i: int)
    requires |s| > 0 && i >= 0
    ensures MatchAt(s[1..], i) <==> MatchAt(s, i + 1)
  {
  }

  /** Each match removes exactly one character: the key shrinks by the
      number of matches and never grows. */
  lemma {:induction false} ToCamelCaseLength(s: string)
    ensures |ToCamelCase(s)| == |s| - MatchCount(s)
  {
    if MatchAt(s, 0) {
      ToCamelCaseLength(s[2..]);
      assert !MatchAt(s[1..], 0);
      assert s[1..][1..] == s[2..];
    } else if s != [] {
      ToCamelCaseLength(s[1..]);
    }
  }

  /** The first character of the rewritten key. */
  lemma ToCamelCaseHead(s: string)
    requires s != []
    ensures ToCamelCase(s) != []
    ensures ToCamelCase(s)[0] == if MatchAt(s, 0) then AsciiUpper(s[1]) else s[0]
  {
  }

  /** No `_` followed by `a`–`z` survives the rewrite. */
  lemma {:induction false} ToCamelCaseIsCamel(s: string)
    ensures IsCamel(ToCamelCase(s))
  {
    if MatchAt(s, 0) {
      ToCamelCaseIsCamel(s[2..]);
      var r := ToCamelCase(s);
      forall i ensures !MatchAt(r, i) {
        if i >= 1 { assert MatchAt(r, i) ==> MatchAt(ToCamelCase(s[2..]), i - 1); }
      }
    } else if s != [] {
      var t := ToCamelCase(s[1..]);
      ToCamelCaseIsCamel(s[1..]);
      var r := ToCamelCase(s);
      assert r == [s[0]] + t;
      forall i ensures !MatchAt(r, i) {
        if i >= 1 {
          assert MatchAt(r, i) ==> MatchAt(t, i - 1);
        } else if i == 0 && |r| >= 2 && s[0] == '_' {
          // s[0] is an underscore that starts no match, so s[1] is no
          // lower-case letter; the next output character is s[1] or an
          // upper-case letter.
          ToCamelCaseHead(s[1..]);
        }
      }
    }
  }

  /** A key is left unchanged exactly when it holds no match. */
  lemma {:induction false} ToCamelCaseFixpoint(s: string)
    ensures ToCamelCase(s) == s <==> IsCamel(s)
  {
    ToCamelCaseIsCamel(s);
    if IsCamel(s) {
      CamelUnchanged(s);
    }
  }

  lemma {:induction false} CamelUnchanged(s: string)
    requires IsCamel(s)
    ensures ToCamelCase(s) == s
  {
    if s != [] {
      assert !MatchAt(s, 0);
      forall i | 0 <= i < |s[1..]| ensures !MatchAt(s[1..], i) {
        MatchAtTail(s, i);
      }
      CamelUnchanged(s[1..]);
    }
  }

  /** Rewriting twice is rewriting once. */
  lemma ToCamelCaseIdempotent(s: string)
    ensures ToCamelCase(ToCamelCase(s)) == ToCamelCase(s)
  {
    ToCamelCaseIsCamel(s);
    ToCamelCaseFixpoint(ToCamelCase(s));
  }

  /** A key without any underscore is already camelCase. */
  lemma NoUnderscoreIsCamel(s: string)
    requires '_' !in s
    ensures IsCamel(s) && ToCamelCase(s) == s
  {
    assert IsCamel(s) by {
      forall i | 0 <= i < |s| ensures !MatchAt(s, i) { assert s[i] in s; }
    }
    ToCamelCaseFixpoint(s);
  }

  /** What the rewrite makes of position `i` of `s` judged from its
      neighbours alone: the underscore of a match disappears, the letter
      after it is upper-cased, and every other character stays. */
  function PieceAt(s: string, i: nat): string
    requires i < |s|
  {
    if MatchAt(s, i) then []
    else if i > 0 && MatchAt(s, i - 1) then [AsciiUpper(s[i])]
    else [s[i]]
  }

  function PiecesFrom(s: string, i: nat): string
    requires i <= |s|
    decreases |s| - i
  {
    if i == |s| then [] else PieceAt(s, i) + PiecesFrom(s, i + 1)
  }

  lemma {:induction false} SuffixPieces(s: string, k: nat)
    requires k <= |s|
    requires k == 0 || !MatchAt(s, k - 1)
    ensures ToCamelCase(s[k..]) == PiecesFrom(s, k)
    decreases |s| - k
  {
    if k < |s| {
      var t := s[k..];
      if MatchAt(s, k) {
        assert MatchAt(t, 0) && t[1] == s[k + 1];
        assert t[2..] == s[k + 2..];
        assert ToCamelCase(t) == [AsciiUpper(s[k + 1])] + ToCamelCase(s[k + 2..]);
        assert !MatchAt(s, k + 1);
        SuffixPieces(s, k + 2);
        assert PieceAt(s, k) == [];
        assert PieceAt(s, k + 1) == [AsciiUpper(s[k + 1])];
        assert PiecesFrom(s, k) == [] + PiecesFrom(s, k + 1);
        assert PiecesFrom(s, k + 1) == [AsciiUpper(s[k + 1])] + PiecesFrom(s, k + 2);
      } else {
        assert !MatchAt(t, 0) && t[0] == s[k];
        assert t[1..] == s[k + 1..];
        assert ToCamelCase(t) == [s[k]] + ToCamelCase(s[k + 1..]);
        SuffixPieces(s, k + 1);
        assert PieceAt(s, k) == [s[k]];
      }
    }
  }

  /** Matches never overlap, so the left-to-right scan agrees with the
      position-by-position rewrite. */
  lemma ToCamelCasePositionwise(s: string)
    ensures ToCamelCase(s) == PiecesFrom(s, 0)
  {
    SuffixPieces(s, 0);
    assert s[0..] == s;
  }

  /** `convertKeysToCamelCase` on values: arrays element by element, objects
      key by key through `toCamelCase` with their values normalised, every
      other value as it is. */
  function Normalize(j: Json): (r: Json)
    ensures j.JArr? <==> r.JArr?
    ensures j.JObj? <==> r.JObj?
    ensures j.JArr? ==> |r.items| == |j.items|
    ensures !j.JArr? && !j.JObj? ==> r == j
  {
    match j
    case JArr(items) => JArr(seq(|items|, i requires 0 <= i < |items| => Normalize(items[i])))
    case JObj(es) =>
      JObj(AssignAll(seq(|es|, i requires 0 <= i < |es| => (ToCamelCase(es[i].0), Normalize(es[i].1)))))
    case _ => j
  }

  /** The pairs the object branch writes, in enumeration order. */
  function RewrittenPairs(es: Entries): (r: Entries)
    ensures |r| == |es|
    ensures Normalize(JObj(es)) == JObj(AssignAll(r))
  {
    seq(|es|, i requires 0 <= i < |es| => (ToCamelCase(es[i].0), Normalize(es[i].1)))
  }

  /** Writing the next property extends the pairs written so far by one. */
  lemma RewrittenPairsStep(es: Entries, i: nat)
    requires i < |es|
    ensures AssignAll(RewrittenPairs(es)[..i + 1]) ==
      Assign(AssignAll(RewrittenPairs(es)[..i]), ToCamelCase(es[i].0), Normalize(es[i].1))
  {
    var pairs := RewrittenPairs(es);
    assert pairs[..i + 1] == pairs[..i] + [pairs[i]];
    AssignAllSnoc(pairs[..i], pairs[i]);
  }

  /** Every object, at every depth, has camelCase keys and no key twice. */
  predicate IsNormal(j: Json) {
    match j
    case JArr(items) => forall i | 0 <= i < |items| :: IsNormal(items[i])
    case JObj(es) => DistinctKeys(es) && forall i | 0 <= i < |es| :: IsCamel(es[i].0) && IsNormal(es[i].1)
    case _ => true
  }

  /** The implementation of `convertKeysToCamelCase`: arrays through `map`,
      each item converted by a recursive call, objects through a `for...in` loop that writes each rewritten key into a
      fresh object, later writes overwriting earlier ones. */
  method ConvertKeysToCamelCase(obj: Json) returns (r: Json)
    ensures r == Normalize(obj)
    decreases obj
  {
    match obj {
      case JArr(items) =>
        var out: seq<Json> := [];
        var i := 0;
        while i < |items|
          invariant 0 <= i <= |items| && |out| == i
          invariant forall k :: 0 <= k < i ==> out[k] == Normalize(items[k])
        {
          assert items[i] in items;
          var v := ConvertKeysToCamelCase(items[i]);
          out := out + [v];
          i := i + 1;
        }
        r := JArr(out);
      case JObj(es) =>
        ghost var pairs := RewrittenPairs(es);
        var newObj: Entries := [];
        var i := 0;
        while i < |es|
          invariant 0 <= i <= |es|
          invariant newObj == AssignAll(pairs[..i])
        {
          var (key, value) := es[i];
          assert es[i] in es;
          var camelKey := ToCamelCase(key);
          var v := ConvertKeysToCamelCase(value);
          RewrittenPairsStep(es, i);
          newObj := Assign(newObj, camelKey, v);
          i := i + 1;
        }
        assert pairs[..|es|] == pairs;
        r := JObj(newObj);
      case _ =>
        r := obj;
    }
  }

  /** Array elements are normalised one by one, in place and in order. */
  lemma NormalizeArray(items: seq<Json>, i: nat)
    requires i < |items|
    ensures Normalize(JArr(items)).items[i] == Normalize(items[i])
  {
  }

  /** The output object's keys are exactly the rewritten input keys, each once. */
  lemma NormalizeObjectKeys(es: Entries)
    ensures Keys(Normalize(JObj(es)).entries) == set i | 0 <= i < |es| :: ToCamelCase(es[i].0)
    ensures DistinctKeys(Normalize(JObj(es)).entries)
  {
    var rp := RewrittenPairs(es);
    assert Keys(rp) == set i | 0 <= i < |es| :: ToCamelCase(es[i].0) by {
      forall k | k in Keys(rp) ensures k in set i | 0 <= i < |es| :: ToCamelCase(es[i].0) {
        var i :| 0 <= i < |rp| && rp[i].0 == k;
      }
      forall i | 0 <= i < |es| ensures ToCamelCase(es[i].0) in Keys(rp) {
        assert rp[i].0 == ToCamelCase(es[i].0);
      }
    }
  }

  /** The output object lists each rewritten key where it was first
      written: when several keys rewrite to the same name, that name takes
      the place of the first of them. */
  lemma NormalizeObjectKeyOrder(es: Entries)
    ensures KeyOrder(Normalize(JObj(es)).entries) ==
      FirstOccurrences(seq(|es|, i requires 0 <= i < |es| => ToCamelCase(es[i].0)))
  {
    var rp := RewrittenPairs(es);
    AssignAllKeyOrder(rp);
    assert KeyOrder(rp) == seq(|es|, i requires 0 <= i < |es| => ToCamelCase(es[i].0));
  }

  /** When two keys rewrite to the same name, the value enumerated last wins. */
  lemma NormalizeObjectLastWins(es: Entries, i: nat)
    requires i < |es|
    requires forall j :: i < j < |es| ==> ToCamelCase(es[j].0) != ToCamelCase(es[i].0)
    ensures Get(Normalize(JObj(es)).entries, ToCamelCase(es[i].0)) == Some(Normalize(es[i].1))
  {
    AssignAllLastWins(RewrittenPairs(es), i);
  }

  /** Without collisions the object keeps its size and its order, each key
      rewritten and each value normalised. */
  lemma NormalizeObjectNoCollision(es: Entries)
    requires forall i, j :: 0 <= i < j < |es| ==> ToCamelCase(es[i].0) != ToCamelCase(es[j].0)
    ensures |Normalize(JObj(es)).entries| == |es|
    ensures forall i :: 0 <= i < |es| ==>
      Normalize(JObj(es)).entries[i] == (ToCamelCase(es[i].0), Normalize(es[i].1))
  {
    AssignAllDistinct(RewrittenPairs(es));
  }

  /** Whatever the input, the output is normal. */
  lemma {:induction false} NormalizeIsNormal(j: Json)
    ensures IsNormal(Normalize(j))
  {
    match j
    case JArr(items) =>
      forall i | 0 <= i < |items| ensures IsNormal(Normalize(items[i])) {
        NormalizeIsNormal(items[i]);
      }
    case JObj(es) =>
      var rp := RewrittenPairs(es);
      var out := AssignAll(rp);
      forall i | 0 <= i < |out| ensures IsCamel(out[i].0) && IsNormal(out[i].1) {
        assert out[i] in rp;
        var k :| 0 <= k < |rp| && rp[k] == out[i];
        assert es[k] in es;
        ToCamelCaseIsCamel(es[k].0);
        NormalizeIsNormal(es[k].1);
      }
    case _ =>
  }

  /** A normal value is left unchanged. */
  lemma {:induction false} NormalIsFixpoint(j: Json)
    requires IsNormal(j)
    ensures Normalize(j) == j
  {
    match j
    case JArr(items) =>
      forall i | 0 <= i < |items| ensures Normalize(items[i]) == items[i] {
        NormalIsFixpoint(items[i]);
      }
      assert Normalize(j).items == items;
    case JObj(es) =>
      var rp := RewrittenPairs(es);
      forall i | 0 <= i < |es| ensures rp[i] == es[i] {
        assert es[i] in es;
        ToCamelCaseFixpoint(es[i].0);
        NormalIsFixpoint(es[i].1);
      }
      assert rp == es;
      AssignAllDistinct(es);
    case _ =>
  }

  /** Normalising twice is normalising once. */
  lemma NormalizeIdempotent(j: Json)
    ensures Normalize(Normalize(j)) == Normalize(j)
  {
    NormalizeIsNormal(j);
    NormalIsFixpoint(Normalize(j));
  }
}
