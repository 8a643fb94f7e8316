/**
 * The front end of toPostfix: a StringTokenizer over the delimiters
 * plus, minus, star, slash, both parentheses and space, with returnDelims set
 * (every delimiter comes back as a one-character token, everything between
 * delimiters as one token), `trim()` of each token, and the classification of
 * the trimmed text, in the order the Java if-chain tests it.
 */
module Lexer {
  import opened Syntax

  /** The delimiter set handed to the tokenizer. */
  predicate IsDelimiter(c: char) {
    c in "+-*/() "
  }

  /** A maximal run of non-delimiters. */
  predicate IsRun(w: string) {
    |w| > 0 && forall i | 0 <= i < |w| :: !IsDelimiter(w[i])
  }

  /** A token the tokenizer can return: one delimiter, or a run of non-delimiters. */
  predicate IsPiece(w: string) {
    (|w| == 1 && IsDelimiter(w[0])) || IsRun(w)
  }

  function Concat(ws: seq<string>): string {
    if ws == [] then [] else ws[0] + Concat(ws[1..])
  }

  /** Number of leading characters of `s` that are not delimiters. */
  function RunLength(s: string): (n: nat)
    ensures n <= |s|
    ensures forall i | 0 <= i < n :: !IsDelimiter(s[i])
    ensures n < |s| ==> IsDelimiter(s[n])
  {
    if s == [] || IsDelimiter(s[0]) then 0 else 1 + RunLength(s[1..])
  }

  /**
   * StringTokenizer with returnDelims = true: the pieces spell the input back,
   * every piece is a delimiter or a run of non-delimiters, and no two runs are
   * adjacent (each run is maximal).
   */
  function Tokenize(s: string): (ws: seq<string>)
    ensures Concat(ws) == s
    ensures forall i | 0 <= i < |ws| :: IsPiece(ws[i])
    ensures forall i | 0 <= i < |ws| - 1 :: !(IsRun(ws[i]) && IsRun(ws[i + 1]))
    decreases |s|
  {
    if s == [] then []
    else if IsDelimiter(s[0]) then
      var rest := Tokenize(s[1..]);
      [s[..1]] + rest
    else
      var n := RunLength(s);
      var rest := Tokenize(s[n..]);
      assert rest != [] ==> IsDelimiter(rest[0][0]) by {
        if rest != [] {
          ConcatHead(rest);
        }
      }
      [s[..n]] + rest
  }

  /** The first character of a concatenation is the first character of its first piece. */
  lemma ConcatHead(ws: seq<string>)
    requires ws != [] && ws[0] != []
    ensures Concat(ws) != [] && Concat(ws)[0] == ws[0][0]
  {
  }

  /** Java's String.trim() strips every leading and trailing character up to U+0020. */
  predicate IsTrimmable(c: char) {
    c <= ' '
  }

  function TrimStart(w: string): (r: string)
    ensures |r| <= |w| && r == w[|w| - |r|..]
    ensures forall i | 0 <= i < |w| - |r| :: IsTrimmable(w[i])
    ensures r == [] || !IsTrimmable(r[0])
  {
    if w == [] || !IsTrimmable(w[0]) then w else TrimStart(w[1..])
  }

  function TrimEnd(w: string): (r: string)
    ensures |r| <= |w| && r == w[..|r|]
    ensures forall i | |r| <= i < |w| :: IsTrimmable(w[i])
    ensures r == [] || !IsTrimmable(r[|r| - 1])
    ensures r != [] ==> r[0] == w[0]
  {
    if w == [] || !IsTrimmable(w[|w| - 1]) then w else TrimEnd(w[..|w| - 1])
  }

  /**
   * String.trim(): the result is a slice of the word with only trimmable
   * characters cut off on either side, it is empty exactly when every
   * character is trimmable, has no trimmable character at either end, and is
   * the word itself when the word has none there.
   */
  function Trim(w: string): (r: string)
    ensures exists i, j | 0 <= i <= j <= |w| :: Slice(w, i, j) == r && TrimmedAround(w, i, j)
    ensures r == [] <==> forall i | 0 <= i < |w| :: IsTrimmable(w[i])
    ensures r != [] ==> !IsTrimmable(r[0]) && !IsTrimmable(r[|r| - 1])
    ensures w != [] && !IsTrimmable(w[0]) && !IsTrimmable(w[|w| - 1]) ==> r == w
  {
    TrimSlice(w);
    TrimEmpty(w);
    TrimIdentity(w);
    TrimEnd(TrimStart(w))
  }

  /** `w[i..j]`, named so that a quantifier over `i` and `j` has a term to match on. */
  function Slice(w: string, i: nat, j: nat): string
    requires i <= j <= |w|
  {
    w[i..j]
  }

  /** Everything before position `i` and from position `j` on is trimmable. */
  predicate TrimmedAround(w: string, i: nat, j: nat)
    requires i <= j <= |w|
  {
    && (forall k | 0 <= k < i :: IsTrimmable(w[k]))
    && (forall k | j <= k < |w| :: IsTrimmable(w[k]))
  }

  lemma SliceOfSuffix<T>(w: seq<T>, i: nat, n: nat)
    requires i + n <= |w|
    ensures w[i..][..n] == w[i..i + n]
  {
  }

  lemma TrimSlice(w: string)
    ensures exists i, j | 0 <= i <= j <= |w| :: Slice(w, i, j) == TrimEnd(TrimStart(w)) && TrimmedAround(w, i, j)
  {
    var i, j := TrimBounds(w);
  }

  /** The positions String.trim() cuts at. */
  lemma TrimBounds(w: string) returns (i: nat, j: nat)
    ensures i <= j <= |w|
    ensures Slice(w, i, j) == TrimEnd(TrimStart(w))
    ensures TrimmedAround(w, i, j)
  {
    var s := TrimStart(w);
    i, j := CutBounds(w, s, TrimEnd(s));
  }

  /**
   * A prefix `r` of a suffix `s` of `w`, with only trimmable characters
   * dropped on both sides, is the slice of `w` between two cut positions.
   */
  lemma CutBounds(w: string, s: string, r: string) returns (i: nat, j: nat)
    requires |s| <= |w| && s == w[|w| - |s|..]
    requires forall k | 0 <= k < |w| - |s| :: IsTrimmable(w[k])
    requires |r| <= |s| && r == s[..|r|]
    requires forall k | |r| <= k < |s| :: IsTrimmable(s[k])
    ensures i <= j <= |w|
    ensures Slice(w, i, j) == r
    ensures TrimmedAround(w, i, j)
  {
    i := |w| - |s|;
    j := i + |r|;
    SliceOfSuffix(w, i, |r|);
    SuffixTrimmable(w, i, s, |r|);
  }

  lemma SuffixTrimmable(w: string, i: nat, s: string, n: nat)
    requires i <= |w| && s == w[i..] && n <= |s|
    requires forall k | n <= k < |s| :: IsTrimmable(s[k])
    ensures forall k | i + n <= k < |w| :: IsTrimmable(w[k])
  {
    forall k | i + n <= k < |w|
      ensures IsTrimmable(w[k])
    {
      assert w[k] == s[k - i];
    }
  }

  lemma TrimEmpty(w: string)
    ensures TrimEnd(TrimStart(w)) == [] <==> forall i | 0 <= i < |w| :: IsTrimmable(w[i])
  {
    var s := TrimStart(w);
    if s != [] {
      assert w[|w| - |s|] == s[0];
      assert !IsTrimmable(s[0]);
    }
  }

  lemma TrimIdentity(w: string)
    ensures w != [] && !IsTrimmable(w[0]) && !IsTrimmable(w[|w| - 1]) ==> TrimEnd(TrimStart(w)) == w
  {
  }

  /** What one trimmed tokenizer piece is to the converter. */
  datatype Item = Blank | Tok(token: Token) | Bad(text: string)

  /**
   * The classification chain of toPostfix applied to a trimmed piece: empty is
   * skipped, then number, `sqrt`, one of `+ - * /`, `(`, `)`, and anything
   * else is an invalid token.
   */
  function Classify(w: string): (it: Item)
    ensures it.Blank? <==> w == []
    ensures it.Tok? ==> Lexeme(it.token) == w && WellFormed(it.token)
    ensures it.Bad? ==> it.text == w
    ensures it.Tok? && it.token.Num? <==> IsNumeral(w)
  {
    if w == [] then Blank
    else if IsNumeral(w) then Tok(Num(w))
    else if w == "sqrt" then Tok(Sqrt)
    else if w == "+" then Tok(Op(Add))
    else if w == "-" then Tok(Op(Sub))
    else if w == "*" then Tok(Op(Mul))
    else if w == "/" then Tok(Op(Div))
    else if w == "(" then Tok(LParen)
    else if w == ")" then Tok(RParen)
    else Bad(w)
  }

  /** Classification inverts spelling: every well-formed token is read back as itself. */
  lemma ClassifyLexeme(t: Token)
    requires WellFormed(t)
    ensures Classify(Lexeme(t)) == Tok(t)
  {
    match t
    case Num(text) =>
    case Op(o) =>
      NotNumeral(Lexeme(t), 0);
    case Sqrt =>
      NotNumeral("sqrt", 0);
    case LParen =>
      NotNumeral("(", 0);
    case RParen =>
      NotNumeral(")", 0);
  }

  /** A word with a character other than a digit or a point is no numeral. */
  lemma NotNumeral(w: string, i: int)
    requires 0 <= i < |w| && !IsDigit(w[i]) && w[i] != '.'
    ensures !IsNumeral(w)
  {
    if IsNumeral(w) {
      NumeralChars(w);
    }
  }

  function ClassifyAll(ws: seq<string>): seq<Item> {
    if ws == [] then [] else [Classify(Trim(ws[0]))] + ClassifyAll(ws[1..])
  }

  /** The items toPostfix's loop sees, in order. */
  function Scan(s: string): seq<Item> {
    ClassifyAll(Tokenize(s))
  }

  /**
   * The tokenizer is determined by its three properties: any segmentation of
   * a string into pieces with no two runs adjacent is the one Tokenize gives.
   */
  lemma {:induction false} TokenizeUnique(ws: seq<string>)
    requires forall i | 0 <= i < |ws| :: IsPiece(ws[i])
    requires forall i | 0 <= i < |ws| - 1 :: !(IsRun(ws[i]) && IsRun(ws[i + 1]))
    ensures Tokenize(Concat(ws)) == ws
  {
    if ws != [] {
      var s := Concat(ws);
      var w := ws[0];
      TokenizeUnique(ws[1..]);
      HeadOfPieces(ws);
      TokenizeHead(s);
      assert ws == [w] + ws[1..];
    }
  }

  /** The tokenizer's first piece of a concatenation of pieces is the first of them. */
  lemma HeadOfPieces(ws: seq<string>)
    requires ws != [] && forall i | 0 <= i < |ws| :: IsPiece(ws[i])
    requires forall i | 0 <= i < |ws| - 1 :: !(IsRun(ws[i]) && IsRun(ws[i + 1]))
    ensures Concat(ws) != [] && HeadLength(Concat(ws)) == |ws[0]|
    ensures Concat(ws)[..|ws[0]|] == ws[0] && Concat(ws)[|ws[0]|..] == Concat(ws[1..])
  {
    var s := Concat(ws);
    var w, tail := ws[0], ws[1..];
    assert s == w + Concat(tail);
    if !(|w| == 1 && IsDelimiter(w[0])) {
      if tail != [] {
        assert IsPiece(tail[0]) && !IsRun(tail[0]);
        ConcatHead(tail);
      }
      assert forall i | 0 <= i < |w| :: s[i] == w[i];
      assert tail != [] ==> s[|w|] == Concat(tail)[0];
      assert RunLength(s) == |w|;
    }
  }

  /**
   * Tokenizing a concatenation tokenizes the parts separately when a
   * delimiter sits on one side of the seam (otherwise two runs would merge).
   */
  lemma {:induction false} TokenizeAppend(x: string, y: string)
    requires x == [] || y == [] || IsDelimiter(x[|x| - 1]) || IsDelimiter(y[0])
    ensures Tokenize(x + y) == Tokenize(x) + Tokenize(y)
    decreases |x|
  {
    if x == [] {
      assert x + y == y;
    } else {
      var n := HeadLength(x);
      SplitHead(x, y);
      TokenizeAppend(x[n..], y);
      Regroup3([x[..n]], Tokenize(x[n..]), Tokenize(y));
    }
  }

  /** The length of the first piece the tokenizer returns. */
  function HeadLength(s: string): (n: nat)
    requires s != []
    ensures 1 <= n <= |s|
  {
    if IsDelimiter(s[0]) then 1 else RunLength(s)
  }

  /** Both `x` and `x + y` begin with the same first piece. */
  lemma SplitHead(x: string, y: string)
    requires x != []
    requires y == [] || IsDelimiter(x[|x| - 1]) || IsDelimiter(y[0])
    ensures Tokenize(x) == [x[..HeadLength(x)]] + Tokenize(x[HeadLength(x)..])
    ensures Tokenize(x + y) == [x[..HeadLength(x)]] + Tokenize(x[HeadLength(x)..] + y)
    ensures var t := x[HeadLength(x)..]; t == [] || y == [] || IsDelimiter(t[|t| - 1]) || IsDelimiter(y[0])
  {
    HeadAppend(x, y);
    TokenizeHead(x);
    TokenizeHead(x + y);
  }

  /** The first piece of `x + y` is the first piece of `x`, when the seam has a delimiter. */
  lemma HeadAppend(x: string, y: string)
    requires x != []
    requires y == [] || IsDelimiter(x[|x| - 1]) || IsDelimiter(y[0])
    ensures HeadLength(x + y) == HeadLength(x)
    ensures (x + y)[..HeadLength(x)] == x[..HeadLength(x)]
    ensures (x + y)[HeadLength(x)..] == x[HeadLength(x)..] + y
    ensures var t := x[HeadLength(x)..]; t == [] || y == [] || IsDelimiter(t[|t| - 1]) || IsDelimiter(y[0])
  {
    HeadLengthAppend(x, y);
    SliceAppend(x, y, HeadLength(x));
  }

  lemma HeadLengthAppend(x: string, y: string)
    requires x != []
    requires y == [] || IsDelimiter(x[|x| - 1]) || IsDelimiter(y[0])
    ensures HeadLength(x + y) == HeadLength(x)
  {
    assert (x + y)[0] == x[0];
    if !IsDelimiter(x[0]) {
      RunLengthAppend(x, y);
    }
  }

  /** Cutting `x + y` inside `x`. */
  lemma SliceAppend<T>(x: seq<T>, y: seq<T>, n: nat)
    requires n <= |x|
    ensures (x + y)[..n] == x[..n]
    ensures (x + y)[n..] == x[n..] + y
    ensures x[n..] != [] ==> x[n..][|x[n..]| - 1] == x[|x| - 1]
  {
  }

  /** The first piece the tokenizer returns, and the rest. */
  lemma TokenizeHead(s: string)
    requires s != []
    ensures Tokenize(s) == [s[..HeadLength(s)]] + Tokenize(s[HeadLength(s)..])
  {
  }

  lemma {:induction false} RunLengthAppend(x: string, y: string)
    requires x != []
    requires y == [] || IsDelimiter(x[|x| - 1]) || IsDelimiter(y[0])
    ensures RunLength(x + y) == RunLength(x)
    decreases |x|
  {
    if y == [] {
      assert x + y == x;
    } else {
      assert (x + y)[0] == x[0];
      if !IsDelimiter(x[0]) {
        assert (x + y)[1..] == x[1..] + y;
        if |x| == 1 {
          assert x[1..] + y == y;
        } else {
          RunLengthAppend(x[1..], y);
        }
      }
    }
  }

  lemma ClassifyAllAppend(a: seq<string>, b: seq<string>)
    ensures ClassifyAll(a + b) == ClassifyAll(a) + ClassifyAll(b)
  {
    if a == [] {
      assert a + b == b;
    } else {
      assert (a + b)[0] == a[0];
      assert (a + b)[1..] == a[1..] + b;
      ClassifyAllAppend(a[1..], b);
    }
  }

  /** Scanning splits at a seam with a delimiter on one side. */
  lemma ScanAppend(x: string, y: string)
    requires x == [] || y == [] || IsDelimiter(x[|x| - 1]) || IsDelimiter(y[0])
    ensures Scan(x + y) == Scan(x) + Scan(y)
  {
    TokenizeAppend(x, y);
    ClassifyAllAppend(Tokenize(x), Tokenize(y));
  }

  /** A single piece is scanned as itself, classified after trimming. */
  lemma ScanPiece(w: string)
    requires IsPiece(w)
    ensures Scan(w) == [Classify(Trim(w))]
  {
    assert [w][1..] == [];
    assert Concat([w]) == w;
    TokenizeUnique([w]);
    assert Tokenize(w) == [w];
    assert ClassifyAll([w]) == [Classify(Trim(w))] + ClassifyAll([]);
  }
}
