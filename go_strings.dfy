/**
 * The parts of Go's `strings` package that the per-line rewrite relies on:
 * `Index`, `Replace`, and the splitting behind `Split` and `Join`.
 * A Go string is modelled as a sequence of characters (runes); for valid
 * UTF-8 text, substring search over runes and over bytes agree.
 */
module GoStrings {

  /** `sub` occurs in `s` at index `i`. */
  ghost predicate Occurs(s: string, sub: string, i: int) {
    0 <= i && i + |sub| <= |s| && s[i..i + |sub|] == sub
  }

  ghost predicate Contains(s: string, sub: string) {
    exists i :: Occurs(s, sub, i)
  }

  /** An occurrence in `s[1..]` is an occurrence in `s`, one place further on, and conversely. */
  lemma {:induction false} OccursTail(s: string, sub: string)
    requires s != []
    ensures forall i :: Occurs(s[1..], sub, i) ==> Occurs(s, sub, i + 1)
    ensures forall i :: 1 <= i && Occurs(s, sub, i) ==> Occurs(s[1..], sub, i - 1)
  {
    forall i | 0 <= i
      ensures Occurs(s[1..], sub, i) <==> Occurs(s, sub, i + 1)
    {
      OccursTailAt(s, sub, i);
    }
  }

  lemma {:induction false} OccursTailAt(s: string, sub: string, i: int)
    requires s != [] && 0 <= i
    ensures Occurs(s[1..], sub, i) <==> Occurs(s, sub, i + 1)
  {
    if i + 1 + |sub| <= |s| {
      assert s[1..][i..i + |sub|] == s[i + 1..i + 1 + |sub|];
    }
  }

  /** A prefix is an occurrence at index 0. */
  lemma {:induction false} PrefixIsOccursAtZero(s: string, sub: string)
    ensures sub <= s <==> Occurs(s, sub, 0)
  {
    if |sub| <= |s| {
      assert s[0..|sub|] == s[..|sub|];
    }
  }

  /** strings.Index: where `sub` first occurs in `s`, or -1; IndexSpec states what it finds. */
  function Index(s: string, sub: string): (r: int)
    ensures r == -1 || 0 <= r <= |s| - |sub|
    decreases |s|
  {
    if |s| < |sub| then -1
    else if sub <= s then 0
    else
      var k := Index(s[1..], sub);
      if k < 0 then -1 else k + 1
  }

  /** Index finds an occurrence with none before it, and -1 exactly when there is none. */
  lemma {:induction false} IndexSpec(s: string, sub: string)
    ensures Index(s, sub) >= 0 ==> Occurs(s, sub, Index(s, sub))
    ensures forall i :: 0 <= i && (i < Index(s, sub) || Index(s, sub) < 0) ==> !Occurs(s, sub, i)
    ensures Index(s, sub) < 0 <==> !Contains(s, sub)
    decreases |s|
  {
    PrefixIsOccursAtZero(s, sub);
    if |s| >= |sub| && !(sub <= s) {
      IndexSpec(s[1..], sub);
      OccursTail(s, sub);
    }
  }

  /** An occurrence with no earlier one is the one `Index` finds. */
  lemma {:induction false} IndexIsFirst(s: string, sub: string, j: int)
    requires Occurs(s, sub, j)
    requires forall i :: 0 <= i < j ==> !Occurs(s, sub, i)
    ensures Index(s, sub) == j
  {
    IndexSpec(s, sub);
  }

  /** The occurrence budget left after one replacement: negative means unlimited. */
  function Remaining(n: int): (m: int)
    ensures n > 0 ==> 0 <= m < n
    ensures n <= 0 ==> m == n
  {
    if n > 0 then n - 1 else n
  }

  /**
   * strings.Replace(s, search, replacement, n): the first `n` non-overlapping
   * occurrences of `search`, scanning left to right, become `replacement`;
   * every occurrence when `n < 0`, none when `n == 0`. An empty `search`
   * matches at every character boundary. A limit of 0 or a search term equal
   * to the replacement leaves the text as it is (Go returns it early in both
   * cases).
   */
  function Replace(s: string, search: string, replacement: string, n: int): (r: string)
    ensures n == 0 || search == replacement ==> r == s
    decreases |s|
  {
    if n == 0 then s
    else if search == [] then InsertAtBoundaries(s, replacement, n)
    else if search <= s then
      assert search + s[|search|..] == s;
      replacement + Replace(s[|search|..], search, replacement, Remaining(n))
    else if s == [] then s
    else [s[0]] + Replace(s[1..], search, replacement, n)
  }

  /** strings.Replace with an empty search: `ins` before each character and after the last, at most `n` times; inserting nothing changes nothing. */
  function InsertAtBoundaries(s: string, ins: string, n: int): (r: string)
    ensures ins == [] ==> r == s
    decreases |s|
  {
    if n == 0 then s
    else if s == [] then ins
    else
      assert [s[0]] + s[1..] == s;
      ins + [s[0]] + InsertAtBoundaries(s[1..], ins, Remaining(n))
  }

  /** How many of `available` places a budget of `n` reaches (all when `n < 0`). */
  function Limit(n: int, available: nat): (k: nat)
    ensures k <= available
    ensures n >= 0 ==> k <= n
    ensures k == available || k == n
  {
    if n < 0 || n > available then available else n
  }

  /** An empty search inserts the replacement at min(n, |s| + 1) places (all |s| + 1 when n < 0). */
  lemma {:induction false} InsertAtBoundariesLength(s: string, ins: string, n: int)
    ensures |InsertAtBoundaries(s, ins, n)| == |s| + Limit(n, |s| + 1) * |ins|
    decreases |s|
  {
    if n != 0 && s != [] {
      InsertAtBoundariesLength(s[1..], ins, Remaining(n));
      assert Limit(n, |s| + 1) == Limit(Remaining(n), |s|) + 1;
      OneMoreInsertion(|InsertAtBoundaries(s, ins, n)|, |InsertAtBoundaries(s[1..], ins, Remaining(n))|,
        |s|, |ins|, Limit(Remaining(n), |s|));
    }
  }

  lemma {:induction false} OneMoreInsertion(total: int, rest: int, len: int, size: int, k: int)
    requires total == size + 1 + rest && rest == len - 1 + k * size
    ensures total == len + (k + 1) * size
  {
  }

  /**
   * The stretches between the first `k` insertion points of an empty search:
   * nothing before the first, then one character each, then the rest.
   */
  function BoundaryPieces(s: string, k: nat): (parts: seq<string>)
    requires 1 <= k <= |s| + 1
    ensures |parts| == k + 1
  {
    [[]] + seq(k - 1, i requires 0 <= i < k - 1 => [s[i]]) + [s[k - 1..]]
  }

  /**
   * Where an empty search inserts: the replacement goes before each of the
   * first min(n, |s| + 1) characters (after the last as well when the limit
   * reaches it), and the characters keep their order.
   */
  lemma {:induction false} InsertAtBoundariesPieces(s: string, ins: string, n: int)
    requires n != 0
    ensures InsertAtBoundaries(s, ins, n) == Join(BoundaryPieces(s, Limit(n, |s| + 1)), ins)
    decreases |s|
  {
    var k := Limit(n, |s| + 1);
    if s == [] || Remaining(n) == 0 {
      InsertOnce(s, ins, n);
    } else {
      var rest := s[1..];
      var k1 := Limit(Remaining(n), |rest| + 1);
      assert k1 == k - 1;
      InsertAtBoundariesPieces(rest, ins, Remaining(n));
      var tail := BoundaryPieces(rest, k1)[1..];
      BoundaryPiecesStep(s, k, tail);
      JoinBoundaryStep(s[0], tail, ins, InsertAtBoundaries(rest, ins, Remaining(n)));
      assert InsertAtBoundaries(s, ins, n) == ins + [s[0]] + InsertAtBoundaries(rest, ins, Remaining(n));
    }
  }

  /** One insertion: the replacement goes in front of the whole text. */
  lemma {:induction false} InsertOnce(s: string, ins: string, n: int)
    requires n != 0 && (s == [] || Remaining(n) == 0)
    ensures Limit(n, |s| + 1) == 1
    ensures InsertAtBoundaries(s, ins, n) == Join(BoundaryPieces(s, 1), ins)
  {
    assert BoundaryPieces(s, 1) == [[]] + [s];
    JoinCons([], [s], ins);
    if s != [] {
      assert InsertAtBoundaries(s, ins, n) == ins + ([s[0]] + s[1..]);
      assert [s[0]] + s[1..] == s;
    }
  }

  /** Joining an empty piece and a one-character piece in front of the later pieces. */
  lemma {:induction false} JoinBoundaryStep(c: char, tail: seq<string>, ins: string, restJoined: string)
    requires tail != [] && restJoined == Join([[]] + tail, ins)
    ensures ins + [c] + restJoined == Join([[]] + ([[c]] + tail), ins)
  {
    JoinCons([], tail, ins);
    JoinCons([c], tail, ins);
    JoinCons([], [[c]] + tail, ins);
  }

  /** The pieces of `s` are an empty piece, the first character, and the later pieces of `s[1..]`. */
  lemma {:induction false} BoundaryPiecesStep(s: string, k: nat, tail: seq<string>)
    requires 2 <= k <= |s| + 1
    requires tail == BoundaryPieces(s[1..], k - 1)[1..]
    ensures BoundaryPieces(s[1..], k - 1) == [[]] + tail
    ensures BoundaryPieces(s, k) == [[]] + ([[s[0]]] + tail)
  {
    var whole := BoundaryPieces(s, k);
    var other := [[]] + ([[s[0]]] + tail);
    assert |whole| == |other|;
    forall i | 0 <= i < |whole|
      ensures whole[i] == other[i]
    {
      if 2 <= i < k {
        assert other[i] == tail[i - 2] == BoundaryPieces(s[1..], k - 1)[i - 1] == [s[1..][i - 2]];
      } else if i == k {
        assert other[i] == BoundaryPieces(s[1..], k - 1)[k - 1] == s[1..][k - 2..];
      }
    }
  }

  /** `s` cut at its first `n` non-overlapping occurrences of `sep` (all when `n < 0`); strings.Split(s, sep) is Pieces(s, sep, -1). */
  function Pieces(s: string, sep: string, n: int): (parts: seq<string>)
    requires sep != []
    ensures |parts| >= 1
    decreases |s|
  {
    if n == 0 || Index(s, sep) < 0 then [s]
    else [s[..Index(s, sep)]] + Pieces(s[Index(s, sep) + |sep|..], sep, Remaining(n))
  }

  /** strings.Join. */
  function Join(parts: seq<string>, sep: string): string {
    if |parts| == 0 then []
    else if |parts| == 1 then parts[0]
    else parts[0] + sep + Join(parts[1..], sep)
  }

  /** An occurrence inside `s[..j]` is an occurrence in `s` that ends by `j`. */
  lemma {:induction false} OccursInPrefix(s: string, sub: string, j: int)
    requires 0 <= j <= |s|
    ensures forall i :: Occurs(s[..j], sub, i) ==> Occurs(s, sub, i) && i + |sub| <= j
  {
    forall i | Occurs(s[..j], sub, i)
      ensures s[..j][i..i + |sub|] == s[i..i + |sub|]
    {
    }
  }

  /** Text before the first occurrence of a non-empty string contains no occurrence. */
  lemma {:induction false} PrefixBeforeIndexIsFree(s: string, sub: string, j: int)
    requires sub != [] && 0 <= j <= |s|
    requires forall i :: 0 <= i < j ==> !Occurs(s, sub, i)
    ensures !Contains(s[..j], sub)
  {
    OccursInPrefix(s, sub, j);
  }

  /** The text before the first occurrence of a non-empty string does not contain it. */
  lemma {:induction false} FirstPieceIsFree(s: string, sub: string)
    requires sub != [] && Index(s, sub) >= 0
    ensures !Contains(s[..Index(s, sub)], sub)
  {
    IndexSpec(s, sub);
    PrefixBeforeIndexIsFree(s, sub, Index(s, sub));
  }

  /** Rejoining the pieces with the separator gives back the input. */
  lemma {:induction false} JoinPieces(s: string, sep: string, n: int)
    requires sep != []
    ensures Join(Pieces(s, sep, n), sep) == s
    decreases |s|
  {
    var j := if n == 0 then -1 else Index(s, sep);
    if j >= 0 {
      IndexSpec(s, sep);
      var rest := s[j + |sep|..];
      JoinPieces(rest, sep, Remaining(n));
      var p := Pieces(rest, sep, Remaining(n));
      assert Pieces(s, sep, n) == [s[..j]] + p;
      assert ([s[..j]] + p)[1..] == p;
      assert s == s[..j] + sep + rest by {
        assert s[j..j + |sep|] == sep;
      }
    }
  }

  /**
   * The pieces are the stretches no replacement touches: at most `n` cuts
   * when `n >= 0`; no piece before a cut contains `sep`; and the last piece
   * is free of `sep` too unless the budget ran out.
   */
  lemma {:induction false} PiecesSpec(s: string, sep: string, n: int)
    requires sep != []
    ensures n >= 0 ==> |Pieces(s, sep, n)| - 1 <= n
    ensures forall k :: 0 <= k < |Pieces(s, sep, n)| - 1 ==> !Contains(Pieces(s, sep, n)[k], sep)
    ensures n < 0 || |Pieces(s, sep, n)| - 1 < n ==> !Contains(Pieces(s, sep, n)[|Pieces(s, sep, n)| - 1], sep)
    decreases |s|
  {
    if n == 0 || Index(s, sep) < 0 {
      IndexSpec(s, sep);
    } else {
      var j := Index(s, sep);
      var rest := s[j + |sep|..];
      PiecesSpec(rest, sep, Remaining(n));
      PiecesSpecStep(s, sep, n, j, rest);
    }
  }

  /** The step of PiecesSpec: a cut at the first occurrence keeps the three properties of the rest. */
  lemma {:induction false} PiecesSpecStep(s: string, sep: string, n: int, j: int, rest: string)
    requires sep != [] && n != 0 && j == Index(s, sep) && j >= 0 && rest == s[j + |sep|..]
    requires n > 0 ==> |Pieces(rest, sep, Remaining(n))| - 1 <= Remaining(n)
    requires forall k :: 0 <= k < |Pieces(rest, sep, Remaining(n))| - 1 ==> !Contains(Pieces(rest, sep, Remaining(n))[k], sep)
    requires Remaining(n) < 0 || |Pieces(rest, sep, Remaining(n))| - 1 < Remaining(n) ==>
      !Contains(Pieces(rest, sep, Remaining(n))[|Pieces(rest, sep, Remaining(n))| - 1], sep)
    ensures n >= 0 ==> |Pieces(s, sep, n)| - 1 <= n
    ensures forall k :: 0 <= k < |Pieces(s, sep, n)| - 1 ==> !Contains(Pieces(s, sep, n)[k], sep)
    ensures n < 0 || |Pieces(s, sep, n)| - 1 < n ==> !Contains(Pieces(s, sep, n)[|Pieces(s, sep, n)| - 1], sep)
  {
    var p := Pieces(rest, sep, Remaining(n));
    assert Pieces(s, sep, n) == [s[..j]] + p by {
      PiecesAtFirstMatch(s, sep, n);
    }
    FirstPieceIsFree(s, sep);
    PiecesCons(Pieces(s, sep, n), s[..j], p, sep, n);
  }

  /** The piece before the first cut, then the pieces of the rest: the property carries over. */
  lemma {:induction false} PiecesCons(parts: seq<string>, first: string, p: seq<string>, sep: string, n: int)
    requires parts == [first] + p && p != [] && n != 0
    requires !Contains(first, sep)
    requires n > 0 ==> |p| - 1 <= Remaining(n)
    requires forall k :: 0 <= k < |p| - 1 ==> !Contains(p[k], sep)
    requires Remaining(n) < 0 || |p| - 1 < Remaining(n) ==> !Contains(p[|p| - 1], sep)
    ensures n >= 0 ==> |parts| - 1 <= n
    ensures forall k :: 0 <= k < |parts| - 1 ==> !Contains(parts[k], sep)
    ensures n < 0 || |parts| - 1 < n ==> !Contains(parts[|parts| - 1], sep)
  {
    assert parts[|parts| - 1] == p[|p| - 1];
    forall k | 0 <= k < |parts| - 1
      ensures !Contains(parts[k], sep)
    {
      if k > 0 {
        assert parts[k] == p[k - 1];
      }
    }
  }

  /** Text that does not contain the search string is returned unchanged. */
  lemma {:induction false} ReplaceNoMatch(s: string, search: string, replacement: string, n: int)
    requires search != [] && !Contains(s, search)
    ensures Replace(s, search, replacement, n) == s
    decreases |s|
  {
    if n != 0 && s != [] {
      PrefixIsOccursAtZero(s, search);
      OccursTail(s, search);
      ReplaceNoMatch(s[1..], search, replacement, n);
    }
  }

  /** With budget left, the first occurrence (as strings.Index finds it) is replaced and the scan resumes after it. */
  lemma {:induction false} ReplaceAtFirstMatch(s: string, search: string, replacement: string, n: int)
    requires search != [] && n != 0 && Index(s, search) >= 0
    ensures Replace(s, search, replacement, n)
         == s[..Index(s, search)] + replacement
            + Replace(s[Index(s, search) + |search|..], search, replacement, Remaining(n))
  {
    ReplaceAtOccurrence(s, Index(s, search), search, replacement, n);
  }

  /** An occurrence with none before it is the first one replaced. */
  lemma {:induction false} ReplaceAtOccurrence(s: string, j: int, search: string, replacement: string, n: int)
    requires search != [] && n != 0 && j == Index(s, search) && j >= 0
    ensures Replace(s, search, replacement, n)
         == s[..j] + replacement + Replace(s[j + |search|..], search, replacement, Remaining(n))
  {
    IndexSpec(s, search);
    ReplaceCopiesUntil(s, j, search, replacement, n);
    ReplaceMatchAt(s, j, search, replacement, n);
    ConcatAssoc(s[..j], replacement, Replace(s[j + |search|..], search, replacement, Remaining(n)));
  }

  lemma {:induction false} ConcatAssoc(a: string, b: string, c: string)
    ensures a + (b + c) == a + b + c
  {
  }

  /** An occurrence at `j` is replaced when the scan reaches it with budget left. */
  lemma {:induction false} ReplaceMatchAt(s: string, j: int, search: string, replacement: string, n: int)
    requires search != [] && n != 0 && Occurs(s, search, j)
    ensures Replace(s[j..], search, replacement, n) == replacement + Replace(s[j + |search|..], search, replacement, Remaining(n))
  {
    var at := s[j..];
    assert search <= at by {
      assert at[..|search|] == s[j..j + |search|];
    }
    assert at[|search|..] == s[j + |search|..];
  }

  /** Text before the first occurrence is copied unchanged ahead of the rewrite of the rest. */
  lemma {:induction false} ReplaceCopiesUntil(s: string, j: int, search: string, replacement: string, n: int)
    requires search != [] && 0 <= j <= |s|
    requires forall i :: 0 <= i < j ==> !Occurs(s, search, i)
    ensures Replace(s, search, replacement, n) == s[..j] + Replace(s[j..], search, replacement, n)
    decreases j
  {
    if j == 0 || n == 0 {
      assert s[..j] + s[j..] == s;
    } else {
      PrefixIsOccursAtZero(s, search);
      OccursTail(s, search);
      ReplaceCopiesUntil(s[1..], j - 1, search, replacement, n);
      assert s[1..][j - 1..] == s[j..];
      CopiedFirstChar(s, j, Replace(s[1..], search, replacement, n), Replace(s[j..], search, replacement, n));
    }
  }

  /** Putting the copied first character back in front of the copied stretch of the tail. */
  lemma {:induction false} CopiedFirstChar(s: string, j: int, tail: string, rest: string)
    requires 0 < j <= |s|
    requires tail == s[1..][..j - 1] + rest
    ensures [s[0]] + tail == s[..j] + rest
  {
    assert [s[0]] + s[1..][..j - 1] == s[..j];
  }

  /** Replace is joining the pieces with the replacement: every cut is one replaced occurrence. */
  lemma {:induction false} ReplaceIsJoinOfPieces(s: string, search: string, replacement: string, n: int)
    requires search != []
    ensures Replace(s, search, replacement, n) == Join(Pieces(s, search, n), replacement)
    decreases |s|
  {
    var j := if n == 0 then -1 else Index(s, search);
    if n == 0 {
    } else if j < 0 {
      IndexSpec(s, search);
      ReplaceNoMatch(s, search, replacement, n);
    } else {
      var rest := s[j + |search|..];
      ReplaceIsJoinOfPieces(rest, search, replacement, Remaining(n));
      ReplaceIsJoinStep(s, search, replacement, n, j, rest);
    }
  }

  /** The step of ReplaceIsJoinOfPieces: one replaced occurrence joins the first piece to the rest. */
  lemma {:induction false} ReplaceIsJoinStep(s: string, search: string, replacement: string, n: int, j: int, rest: string)
    requires search != [] && n != 0 && j == Index(s, search) && j >= 0 && rest == s[j + |search|..]
    requires Replace(rest, search, replacement, Remaining(n)) == Join(Pieces(rest, search, Remaining(n)), replacement)
    ensures Replace(s, search, replacement, n) == Join(Pieces(s, search, n), replacement)
  {
    var p := Pieces(rest, search, Remaining(n));
    ReplaceAtFirstMatch(s, search, replacement, n);
    PiecesAtFirstMatch(s, search, n);
    JoinCons(s[..j], p, replacement);
  }

  /** With budget left, the first piece ends where Index finds the separator. */
  lemma {:induction false} PiecesAtFirstMatch(s: string, sep: string, n: int)
    requires sep != [] && n != 0 && Index(s, sep) >= 0
    ensures Pieces(s, sep, n) == [s[..Index(s, sep)]] + Pieces(s[Index(s, sep) + |sep|..], sep, Remaining(n))
  {
  }

  /** Joining a piece in front of at least one more. */
  lemma {:induction false} JoinCons(first: string, p: seq<string>, sep: string)
    requires p != []
    ensures Join([first] + p, sep) == first + sep + Join(p, sep)
  {
    assert ([first] + p)[1..] == p;
  }

  /** A text shorter than the search term cannot contain it. */
  lemma {:induction false} ShorterNoMatch(s: string, sub: string)
    requires |s| < |sub|
    ensures !Contains(s, sub)
  {
  }

  /** Every character of an occurrence is present in `s`. */
  lemma {:induction false} ContainsNeedsChar(s: string, sub: string, c: char)
    requires c in sub
    ensures Contains(s, sub) ==> c in s
  {
    if Contains(s, sub) {
      var i :| Occurs(s, sub, i);
      var k :| 0 <= k < |sub| && sub[k] == c;
      assert s[i..i + |sub|][k] == s[i + k];
    }
  }

  /** Occurrences starting before `j` are ruled out when the search term's `k`-th character is missing from where it would have to be. */
  lemma {:induction false} NoOccurrenceBefore(s: string, sub: string, j: int, k: int)
    requires 0 <= k < |sub| && 0 <= j && j + k <= |s|
    requires sub[k] !in s[k..j + k]
    ensures forall i :: 0 <= i < j ==> !Occurs(s, sub, i)
  {
    forall i | 0 <= i < j
      ensures !Occurs(s, sub, i)
    {
      if i + |sub| <= |s| {
        assert s[i..i + |sub|][k] == s[i + k] == s[k..j + k][i];
      }
    }
  }

  /** The same for the whole text: the `k`-th character of the search term must appear in the span its occurrences can reach. */
  lemma {:induction false} NoOccurrence(s: string, sub: string, k: int)
    requires 0 <= k < |sub| <= |s|
    requires sub[k] !in s[k..|s| - |sub| + k + 1]
    ensures !Contains(s, sub)
  {
    NoOccurrenceBefore(s, sub, |s| - |sub| + 1, k);
  }

  /** A one-character string occurs wherever its character does. */
  lemma {:induction false} CharOccurs(p: string, k: int)
    requires 0 <= k < |p|
    ensures Occurs(p, [p[k]], k)
  {
    assert p[k..k + 1] == [p[k]];
  }

  /** A text free of the one-character string `[c]` lacks `c`. */
  lemma {:induction false} CharNotInFreePiece(p: string, c: char)
    requires !Contains(p, [c])
    ensures c !in p
  {
    forall k | 0 <= k < |p|
      ensures p[k] != c
    {
      CharOccurs(p, k);
    }
  }
}
