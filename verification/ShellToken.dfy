/** pset5/helpers.c: the shell tokenizer and its growing string. */
module ShellToken {
  import opened Basics

  datatype Kind = NORMAL | REDIRECTION | SEQUENCE | BACKGROUND | PIPE | AND | OR | LPAREN | RPAREN | OTHER

  /** The result of looking for a token: its kind and text, and how far the
      pointer moves. */
  datatype Lexeme = End | Lexeme(kind: Kind, text: seq<byte>, used: nat)

  datatype Word = Word(text: seq<byte>, used: nat)

  datatype Token = Token(kind: Kind, text: seq<byte>)

  /** `isspace` in the C locale */
  predicate IsSpace(c: byte) { 9 <= c <= 13 || c == 32 }

  predicate IsDigit(c: byte) { 48 <= c <= 57 }

  /** `< > & | ; ( ) #` */
  predicate IsSpecial(c: byte) { c == 60 || c == 62 || c == 38 || c == 124 || c == 59 || c == 40 || c == 41 || c == 35 }

  /** Character `k` of a C string: the NUL after the last. */
  function At(s: seq<byte>, k: nat): byte { if k < |s| then s[k] else 0 }

  function Spaces(s: seq<byte>): (n: nat)
    ensures n <= |s| && !IsSpace(At(s, n))
  {
    if s != [] && IsSpace(s[0]) then 1 + Spaces(s[1..]) else 0
  }

  function Digits(s: seq<byte>): (n: nat)
    ensures n <= |s| && !IsDigit(At(s, n)) && forall k :: 0 <= k < n ==> IsDigit(s[k])
  {
    if s != [] && IsDigit(s[0]) then 1 + Digits(s[1..]) else 0
  }

  /** A word: quotes and backslashes are taken off.  `quoted` is the open
      quote, or 0. */
  function ReadWord(s: seq<byte>, quoted: byte): (w: Word)
    ensures w.used <= |s|
  {
    if s == [] || (quoted == 0 && (IsSpace(s[0]) || IsSpecial(s[0]))) then Word([], 0)
    else if (s[0] == 34 || s[0] == 39) && quoted == 0 then
      var w := ReadWord(s[1..], s[0]); Word(w.text, w.used + 1)
    else if s[0] == quoted then
      var w := ReadWord(s[1..], 0); Word(w.text, w.used + 1)
    else if s[0] == 92 && |s| > 1 && quoted != 39 then
      var w := ReadWord(s[2..], quoted); Word([s[1]] + w.text, w.used + 2)
    else
      var w := ReadWord(s[1..], quoted); Word([s[0]] + w.text, w.used + 1)
  }

  function Operator(c: byte): Kind {
    if c == 59 then SEQUENCE
    else if c == 38 then BACKGROUND
    else if c == 124 then PIPE
    else if c == 40 then LPAREN
    else if c == 41 then RPAREN
    else OTHER
  }

  /** A redirection at `s[d]`, after `d` digits.  The form with `&` and a
      second number moves one character too far. */
  function Redirection(s: seq<byte>, d: nat): (r: Lexeme)
    requires d < |s|
    ensures r.Lexeme? && 0 < r.used <= |s| + 1
  {
    if At(s, d + 1) == 62 then Lexeme(REDIRECTION, s[..d + 2], d + 2)
    else if At(s, d + 1) == 38 && IsDigit(At(s, d + 2)) then
      var e := d + 2 + Digits(s[d + 2..]);
      Lexeme(REDIRECTION, s[..e], e + 1)
    else Lexeme(REDIRECTION, s[..d + 1], d + 1)
  }

  /** The token at the start of `s`, which does not start with a space. */
  function Lex(s: seq<byte>): (r: Lexeme)
    requires !IsSpace(At(s, 0))
    ensures r.Lexeme? ==> 0 < r.used <= |s| + 1
  {
    if s == [] || s[0] == 35 then End
    else
      var d := Digits(s);
      if At(s, d) == 60 || At(s, d) == 62 then Redirection(s, d)
      else if d == 0 && (s[0] == 38 || s[0] == 124) && At(s, 1) == s[0] then
        Lexeme(if s[0] == 38 then AND else OR, s[..2], 2)
      else if d == 0 && IsSpecial(s[0]) then Lexeme(Operator(s[0]), s[..1], 1)
      else
        var w := ReadWord(s[d..], 0);
        assert d == 0 ==> w.used > 0;
        Lexeme(NORMAL, s[..d] + w.text, d + w.used)
  }

  /** `parse_shell_token` of the string `s`. */
  function Next(s: seq<byte>): (r: Lexeme)
    ensures r.Lexeme? ==> 0 < r.used <= |s| + 1
  {
    var n := Spaces(s);
    match Lex(s[n..])
    case End => End
    case Lexeme(kind, text, used) => Lexeme(kind, text, n + used)
  }

  /** The string ends with the second number of a redirection. */
  predicate EndsInNumber(s: seq<byte>) {
    var t := s[Spaces(s)..];
    var d := Digits(t);
    (At(t, d) == 60 || At(t, d) == 62) && At(t, d + 1) == 38 && IsDigit(At(t, d + 2))
      && d + 2 + Digits(t[d + 2..]) == |t|
  }

  /** The pointer that is returned is inside the string or at its NUL, except
      for that one form, for which it is past the NUL. */
  lemma PastTheEnd(s: seq<byte>)
    ensures Next(s).Lexeme? && Next(s).used > |s| <==> EndsInNumber(s)
  {
  }

  // ------------------------------------------------------------- rendering

  datatype Quoted = Quoted(c: byte, escaped: bool)

  /** The ways to write a part of a word. */
  datatype Piece = Plain(c: byte) | Escaped(c: byte) | Single(s: seq<byte>) | Double(q: seq<Quoted>)

  datatype Suffix = NoSuffix | Append | Number(digits: seq<byte>)

  /** What a command line is made of. */
  datatype Item = WordItem(pieces: seq<Piece>) | OperatorItem(kind: Kind)
    | RedirectionItem(digits: seq<byte>, c: byte, suffix: Suffix)

  predicate PieceOK(p: Piece) {
    match p
    case Plain(c) => c != 0 && !IsSpace(c) && !IsSpecial(c) && c != 34 && c != 39 && c != 92
    case Escaped(c) => c != 0
    case Single(s) => 39 !in s && 0 !in s
    case Double(q) => forall x :: x in q ==> x.c != 0 && (x.escaped || (x.c != 34 && x.c != 92))
  }

  predicate AllDigits(s: seq<byte>) { forall c :: c in s ==> IsDigit(c) }

  predicate ItemOK(it: Item) {
    match it
    case WordItem(pieces) => pieces != [] && forall p :: p in pieces ==> PieceOK(p)
    case OperatorItem(kind) => kind in {SEQUENCE, BACKGROUND, PIPE, AND, OR, LPAREN, RPAREN}
    case RedirectionItem(digits, c, suffix) =>
      AllDigits(digits) && (c == 60 || c == 62) && (suffix.Number? ==> suffix.digits != [] && AllDigits(suffix.digits))
  }

  function RenderQuoted(q: seq<Quoted>): seq<byte> {
    if q == [] then [] else (if q[0].escaped then [92, q[0].c] else [q[0].c]) + RenderQuoted(q[1..])
  }

  function QuotedText(q: seq<Quoted>): seq<byte> { if q == [] then [] else [q[0].c] + QuotedText(q[1..]) }

  function RenderPiece(p: Piece): (s: seq<byte>)
    ensures s != []
  {
    match p
    case Plain(c) => [c]
    case Escaped(c) => [92, c]
    case Single(s) => [39] + s + [39]
    case Double(q) => [34] + RenderQuoted(q) + [34]
  }

  function PieceText(p: Piece): seq<byte> {
    match p
    case Plain(c) => [c]
    case Escaped(c) => [c]
    case Single(s) => s
    case Double(q) => QuotedText(q)
  }

  function RenderPieces(pieces: seq<Piece>): (s: seq<byte>)
    ensures pieces != [] ==> s != []
  {
    if pieces == [] then [] else RenderPiece(pieces[0]) + RenderPieces(pieces[1..])
  }

  function PiecesText(pieces: seq<Piece>): seq<byte> {
    if pieces == [] then [] else PieceText(pieces[0]) + PiecesText(pieces[1..])
  }

  function OperatorText(kind: Kind): seq<byte> {
    match kind
    case BACKGROUND => [38]
    case PIPE => [124]
    case AND => [38, 38]
    case OR => [124, 124]
    case LPAREN => [40]
    case RPAREN => [41]
    case _ => [59]
  }

  function RedirectionText(digits: seq<byte>, c: byte, suffix: Suffix): seq<byte> {
    digits + [c] + match suffix case NoSuffix => [] case Append => [62] case Number(d) => [38] + d
  }

  function RenderItem(it: Item): (s: seq<byte>)
    requires ItemOK(it)
    ensures s != []
  {
    match it
    case WordItem(pieces) => RenderPieces(pieces)
    case OperatorItem(kind) => OperatorText(kind)
    case RedirectionItem(digits, c, suffix) => RedirectionText(digits, c, suffix)
  }

  function TokenOf(it: Item): Token {
    match it
    case WordItem(pieces) => Token(NORMAL, PiecesText(pieces))
    case OperatorItem(kind) => Token(kind, OperatorText(kind))
    case RedirectionItem(digits, c, suffix) => Token(REDIRECTION, RedirectionText(digits, c, suffix))
  }

  /** A redirection to a numbered descriptor takes the character after it. */
  predicate TakesNext(it: Item) { it.RedirectionItem? && it.suffix.Number? }

  /** A word ends here: at the end, at white space or at an operator. */
  predicate Stops(tail: seq<byte>) { tail == [] || IsSpace(tail[0]) || IsSpecial(tail[0]) }

  /** A word that could be the number of a redirection. */
  predicate PlainDigits(pieces: seq<Piece>) { forall p :: p in pieces ==> p.Plain? && IsDigit(p.c) }

  /** What may follow an item directly: anything that does not make another
      token of it, and behind a redirection to a number, whose next character
      is skipped, only white space or the end. */
  predicate MayFollow(it: Item, tail: seq<byte>) {
    match it
    case WordItem(pieces) => Stops(tail) && (At(tail, 0) == 60 || At(tail, 0) == 62 ==> !PlainDigits(pieces))
    case OperatorItem(kind) =>
      (kind == BACKGROUND ==> At(tail, 0) != 38) && (kind == PIPE ==> At(tail, 0) != 124)
    case RedirectionItem(_, _, suffix) =>
      (suffix == NoSuffix ==> At(tail, 0) != 62 && !(At(tail, 0) == 38 && IsDigit(At(tail, 1))))
      && (suffix.Number? ==> tail == [] || IsSpace(tail[0]))
  }

  lemma ReadQuote(q: byte, more: seq<byte>)
    requires q == 34 || q == 39
    ensures var w := ReadWord(more, q); ReadWord([q] + more, 0) == Word(w.text, 1 + w.used)
    ensures var w := ReadWord(more, 0); ReadWord([q] + more, q) == Word(w.text, 1 + w.used)
  {
  }

  lemma ReadEscape(c: byte, more: seq<byte>, quoted: byte)
    requires quoted == 0 || quoted == 34
    ensures var w := ReadWord(more, quoted); ReadWord([92, c] + more, quoted) == Word([c] + w.text, 2 + w.used)
  {
  }

  /** A character that means itself between quotes `quoted`, or outside. */
  predicate Literal(c: byte, quoted: byte) {
    c != 0 && c != quoted
    && (quoted == 0 ==> !IsSpace(c) && !IsSpecial(c) && c != 34 && c != 39)
    && (quoted != 39 ==> c != 92)
  }

  lemma ReadLiteral(c: byte, more: seq<byte>, quoted: byte)
    requires Literal(c, quoted)
    ensures var w := ReadWord(more, quoted); ReadWord([c] + more, quoted) == Word([c] + w.text, 1 + w.used)
  {
  }

  lemma {:induction false} ReadSingle(s: seq<byte>, more: seq<byte>)
    requires 39 !in s && 0 !in s
    ensures var w := ReadWord(more, 0); ReadWord(s + ([39] + more), 39) == Word(s + w.text, |s| + 1 + w.used)
  {
    hide ReadWord;
    var close := [39] + more;
    ReadQuote(39, more);
    if s == [] {
      assert s + close == close;
    } else {
      ReadSingle(s[1..], more);
      ReadLiteral(s[0], s[1..] + close, 39);
      assert s + close == [s[0]] + (s[1..] + close);
    }
  }

  lemma {:induction false} ReadDouble(q: seq<Quoted>, more: seq<byte>)
    requires PieceOK(Double(q))
    ensures var w := ReadWord(more, 0);
      ReadWord(RenderQuoted(q) + ([34] + more), 34) == Word(QuotedText(q) + w.text, |RenderQuoted(q)| + 1 + w.used)
  {
    hide ReadWord;
    ReadQuote(34, more);
    var close := [34] + more;
    if q == [] {
      assert RenderQuoted(q) + close == close;
    } else {
      ReadDouble(q[1..], more);
      var c, rest := q[0].c, RenderQuoted(q[1..]) + close;
      if q[0].escaped {
        ReadEscape(c, rest, 34);
        assert RenderQuoted(q) + close == [92, c] + rest;
      } else {
        ReadLiteral(c, rest, 34);
        assert RenderQuoted(q) + close == [c] + rest;
      }
    }
  }

  lemma Enclosed(q: byte, inner: seq<byte>, more: seq<byte>)
    requires q == 34 || q == 39
    ensures var w := ReadWord(inner + ([q] + more), q);
      ReadWord([q] + inner + [q] + more, 0) == Word(w.text, 1 + w.used)
  {
    hide ReadWord;
    ReadQuote(q, inner + ([q] + more));
    assert [q] + inner + [q] + more == [q] + (inner + ([q] + more));
  }

  /** One piece of a word is read as its text. */
  lemma ReadPiece(p: Piece, more: seq<byte>)
    requires PieceOK(p)
    ensures var w := ReadWord(more, 0);
      ReadWord(RenderPiece(p) + more, 0) == Word(PieceText(p) + w.text, |RenderPiece(p)| + w.used)
  {
    hide ReadWord, RenderQuoted, QuotedText, IsSpace, IsSpecial;
    match p {
      case Plain(c) => ReadLiteral(c, more, 0);
      case Escaped(c) => ReadEscape(c, more, 0);
      case Single(s) =>
        ReadSingle(s, more);
        Enclosed(39, s, more);
      case Double(q) =>
        ReadDouble(q, more);
        Enclosed(34, RenderQuoted(q), more);
    }
  }

  lemma ReadEnd(tail: seq<byte>)
    requires Stops(tail)
    ensures ReadWord(tail, 0) == Word([], 0)
  {
  }

  /** Every way of writing a word is read as the word. */
  lemma {:induction false} ReadPieces(pieces: seq<Piece>, tail: seq<byte>)
    requires (forall p :: p in pieces ==> PieceOK(p)) && Stops(tail)
    ensures ReadWord(RenderPieces(pieces) + tail, 0) == Word(PiecesText(pieces), |RenderPieces(pieces)|)
  {
    hide ReadWord, RenderPiece, PieceText, PieceOK;
    if pieces == [] {
      ReadEnd(tail);
      assert RenderPieces(pieces) + tail == tail;
    } else {
      var more := RenderPieces(pieces[1..]) + tail;
      ReadPieces(pieces[1..], tail);
      ReadPiece(pieces[0], more);
      assert RenderPieces(pieces) + tail == RenderPiece(pieces[0]) + more;
    }
  }

  lemma DigitsCons(c: byte, t: seq<byte>)
    ensures Digits([c] + t) == if IsDigit(c) then 1 + Digits(t) else 0
  {
  }

  /** Leading digits are read as they are. */
  lemma {:induction false} ReadDigits(s: seq<byte>)
    ensures var d := Digits(s); var w := ReadWord(s[d..], 0); ReadWord(s, 0) == Word(s[..d] + w.text, d + w.used)
  {
    hide ReadWord, Digits;
    if s == [] || !IsDigit(s[0]) {
      NoDigits(s);
      assert s[0..] == s;
    } else {
      var c, t := s[0], s[1..];
      var d := Digits(t);
      assert s == [c] + t;
      ReadDigits(t);
      DigitsCons(c, t);
      ReadLiteral(c, t, 0);
      var w := ReadWord(t[d..], 0);
      assert s[d + 1..] == t[d..] && s[..d + 1] == [c] + t[..d];
      assert [c] + (t[..d] + w.text) == s[..d + 1] + w.text;
    }
  }

  lemma NoDigits(s: seq<byte>)
    requires s == [] || !IsDigit(s[0])
    ensures Digits(s) == 0
  {
  }

  lemma {:induction false} DigitsOf(digits: seq<byte>, more: seq<byte>)
    requires AllDigits(digits) && !IsDigit(At(more, 0))
    ensures Digits(digits + more) == |digits|
  {
    if digits == [] {
      assert digits + more == more;
    } else {
      DigitsOf(digits[1..], more);
      assert (digits + more)[1..] == digits[1..] + more;
    }
  }

  lemma FirstOfPiece(p: Piece, more: seq<byte>)
    requires PieceOK(p)
    ensures var c := (RenderPiece(p) + more)[0]; !IsSpace(c) && !IsSpecial(c) && (IsDigit(c) ==> p == Plain(c))
  {
  }

  lemma AtCons(c: byte, t: seq<byte>, k: nat)
    ensures At([c] + t, k + 1) == At(t, k)
  {
  }

  /** After the digits at its start a word does not look like a redirection. */
  lemma {:induction false} AfterDigits(pieces: seq<Piece>, tail: seq<byte>)
    requires (forall p :: p in pieces ==> PieceOK(p)) && MayFollow(WordItem(pieces), tail)
    ensures var s := RenderPieces(pieces) + tail; At(s, Digits(s)) != 60 && At(s, Digits(s)) != 62
  {
    var s := RenderPieces(pieces) + tail;
    if pieces == [] {
      assert s == tail;
      NoDigits(s);
    } else {
      var more := RenderPieces(pieces[1..]) + tail;
      assert s == RenderPiece(pieces[0]) + more;
      FirstOfPiece(pieces[0], more);
      if IsDigit(s[0]) {
        assert s == [s[0]] + more;
        assert PlainDigits(pieces[1..]) ==> PlainDigits(pieces);
        hide *;
        AfterDigits(pieces[1..], tail);
        DigitsCons(s[0], more);
        AtCons(s[0], more, Digits(more));
      } else {
        NoDigits(s);
      }
    }
  }

  /** A token that is not an operator. */
  lemma LexNormal(s: seq<byte>)
    requires s != [] && !IsSpace(s[0]) && !IsSpecial(s[0]) && At(s, Digits(s)) != 60 && At(s, Digits(s)) != 62
    ensures !IsSpace(At(s, 0))
    ensures var w := ReadWord(s, 0); Lex(s) == Lexeme(NORMAL, w.text, w.used)
  {
    ReadDigits(s);
    hide ReadWord, Digits, Redirection;
  }

  lemma FirstOfWord(pieces: seq<Piece>, tail: seq<byte>)
    requires pieces != [] && forall p :: p in pieces ==> PieceOK(p)
    ensures var c := (RenderPieces(pieces) + tail)[0]; !IsSpace(c) && !IsSpecial(c)
  {
    var more := RenderPieces(pieces[1..]) + tail;
    assert RenderPieces(pieces) + tail == RenderPiece(pieces[0]) + more;
    FirstOfPiece(pieces[0], more);
  }

  lemma LexWord(pieces: seq<Piece>, tail: seq<byte>)
    requires ItemOK(WordItem(pieces)) && MayFollow(WordItem(pieces), tail)
    ensures var s := RenderPieces(pieces) + tail;
      !IsSpace(At(s, 0)) && Lex(s) == Lexeme(NORMAL, PiecesText(pieces), |RenderPieces(pieces)|)
  {
    assert pieces != [] && (forall p :: p in pieces ==> PieceOK(p)) && Stops(tail);
    hide *;
    FirstOfWord(pieces, tail);
    AfterDigits(pieces, tail);
    ReadPieces(pieces, tail);
    LexNormal(RenderPieces(pieces) + tail);
  }

  lemma LexOperator(kind: Kind, tail: seq<byte>)
    requires ItemOK(OperatorItem(kind)) && MayFollow(OperatorItem(kind), tail)
    ensures var s := OperatorText(kind) + tail;
      !IsSpace(At(s, 0)) && Lex(s) == Lexeme(kind, OperatorText(kind), |OperatorText(kind)|)
  {
    var s := OperatorText(kind) + tail;
    NoDigits(s);
    assert s[..|OperatorText(kind)|] == OperatorText(kind);
    assert |OperatorText(kind)| == 1 ==> At(s, 1) == At(tail, 0);
    hide ReadWord, Redirection;
  }

  lemma LexArrow(s: seq<byte>, d: nat)
    requires d < |s| && Digits(s) == d && (s[d] == 60 || s[d] == 62)
    ensures !IsSpace(At(s, 0)) && Lex(s) == Redirection(s, d)
  {
  }

  /** What follows the arrow. */
  lemma RedirectionEnd(s: seq<byte>, d: nat, suffix: seq<byte>, tail: seq<byte>)
    requires d < |s| && s[d + 1..] == suffix + tail
    ensures suffix == [] && At(tail, 0) != 62 && !(At(tail, 0) == 38 && IsDigit(At(tail, 1))) ==>
      Redirection(s, d) == Lexeme(REDIRECTION, s[..d + 1], d + 1)
    ensures suffix == [62] ==> Redirection(s, d) == Lexeme(REDIRECTION, s[..d + 2], d + 2)
    ensures |suffix| > 1 && suffix[0] == 38 && AllDigits(suffix[1..]) && !IsDigit(At(tail, 0)) ==>
      d + 1 + |suffix| <= |s| && Redirection(s, d) == Lexeme(REDIRECTION, s[..d + 1 + |suffix|], d + 2 + |suffix|)
  {
    assert suffix == [] ==> At(s, d + 1) == At(tail, 0) && At(s, d + 2) == At(tail, 1);
    assert suffix != [] ==> s[d + 1] == (suffix + tail)[0];
    if |suffix| > 1 && suffix[0] == 38 && AllDigits(suffix[1..]) && !IsDigit(At(tail, 0)) {
      assert s[d + 2..] == s[d + 1..][1..] == suffix[1..] + tail;
      DigitsOf(suffix[1..], tail);
      assert s[d + 2] == s[d + 2..][0] == suffix[1..][0];
      hide Digits;
    }
  }

  lemma LexRedirection(digits: seq<byte>, c: byte, suffix: Suffix, tail: seq<byte>)
    requires ItemOK(RedirectionItem(digits, c, suffix)) && MayFollow(RedirectionItem(digits, c, suffix), tail)
    ensures var text := RedirectionText(digits, c, suffix);
      !IsSpace(At(text + tail, 0))
        && Lex(text + tail) == Lexeme(REDIRECTION, text, |text| + if suffix.Number? then 1 else 0)
  {
    var text, d := RedirectionText(digits, c, suffix), |digits|;
    var s, after := text + tail, text[d + 1..];
    RedirectionShape(digits, c, suffix, tail);
    NoDigitSpace(tail);
    hide *;
    DigitsOf(digits, s[d..]);
    LexArrow(s, d);
    RedirectionEnd(s, d, after, tail);
  }

  lemma RedirectionShape(digits: seq<byte>, c: byte, suffix: Suffix, tail: seq<byte>)
    requires ItemOK(RedirectionItem(digits, c, suffix))
    ensures var text, d := RedirectionText(digits, c, suffix), |digits|;
      var s, after := text + tail, text[d + 1..];
      d < |text| && |text| == d + 1 + |after| && s == digits + s[d..] && s[d] == c && s[d + 1..] == after + tail
      && s[..|text|] == text && s[..d + 1 + |after|] == text && !IsDigit(At(s[d..], 0)) && AllDigits(digits)
      && match suffix
         case NoSuffix => after == []
         case Append => after == [62]
         case Number(n) => after == [38] + n && after[1..] == n && |after| > 1 && AllDigits(after[1..])
  {
  }

  lemma NoDigitSpace(tail: seq<byte>)
    ensures tail == [] || IsSpace(tail[0]) ==> !IsDigit(At(tail, 0))
  {
  }

  /** An item is read back, whatever follows that may. */
  lemma LexItem(it: Item, tail: seq<byte>)
    requires ItemOK(it) && MayFollow(it, tail)
    ensures !IsSpace(At(RenderItem(it) + tail, 0))
    ensures Lex(RenderItem(it) + tail)
      == Lexeme(TokenOf(it).kind, TokenOf(it).text, |RenderItem(it)| + if TakesNext(it) then 1 else 0)
  {
    match it {
      case WordItem(pieces) => LexWord(pieces, tail);
      case OperatorItem(kind) => LexOperator(kind, tail);
      case RedirectionItem(digits, c, suffix) => LexRedirection(digits, c, suffix, tail);
    }
  }

  // ------------------------------------------------------------ round trip

  /** Repeated calls, until NULL; None if the pointer leaves the string. */
  function Tokens(s: seq<byte>): Option<seq<Token>>
    decreases |s|
  {
    match Next(s)
    case End => Some([])
    case Lexeme(kind, text, used) =>
      if used > |s| then None else Prepend(Token(kind, text), Tokens(s[used..]))
  }

  /** An item and the white space before it. */
  datatype Spaced = Spaced(gap: seq<byte>, item: Item)

  predicate AllSpaces(s: seq<byte>) { forall c :: c in s ==> IsSpace(c) }

  /** A command line: its parts, and what follows the last one. */
  function Render(parts: seq<Spaced>, end: seq<byte>): seq<byte>
    requires forall part :: part in parts ==> ItemOK(part.item)
  {
    if parts == [] then end else parts[0].gap + (RenderItem(parts[0].item) + Render(parts[1..], end))
  }

  /** Every item may be followed by what follows it, with or without white
      space, and the line ends in white space or a comment. */
  predicate LineOK(parts: seq<Spaced>, end: seq<byte>) {
    if parts == [] then Spaces(end) == |end| || end[Spaces(end)] == 35
    else
      (forall part :: part in parts ==> ItemOK(part.item))
      && AllSpaces(parts[0].gap) && MayFollow(parts[0].item, Render(parts[1..], end)) && LineOK(parts[1..], end)
  }

  function TokensOf(parts: seq<Spaced>): seq<Token> {
    if parts == [] then [] else [TokenOf(parts[0].item)] + TokensOf(parts[1..])
  }

  lemma SkipSpace(c: byte, s: seq<byte>)
    requires IsSpace(c)
    ensures Tokens([c] + s) == Tokens(s)
  {
    var t := [c] + s;
    assert t[1..] == s && Spaces(t) == 1 + Spaces(s) && t[Spaces(t)..] == s[Spaces(s)..];
    match Next(s) {
      case End =>
      case Lexeme(kind, text, used) => if used <= |s| { assert t[used + 1..] == s[used..]; }
    }
  }

  lemma {:induction false} SkipGap(gap: seq<byte>, s: seq<byte>)
    requires AllSpaces(gap)
    ensures Tokens(gap + s) == Tokens(s)
  {
    hide Tokens, IsSpace;
    if gap == [] {
      assert gap + s == s;
    } else {
      SkipGap(gap[1..], s);
      SkipSpace(gap[0], gap[1..] + s);
      assert gap + s == [gap[0]] + (gap[1..] + s);
    }
  }

  lemma NextItem(it: Item, tail: seq<byte>)
    requires ItemOK(it) && MayFollow(it, tail)
    ensures Next(RenderItem(it) + tail)
         == Lexeme(TokenOf(it).kind, TokenOf(it).text, |RenderItem(it)| + if TakesNext(it) then 1 else 0)
  {
    LexItem(it, tail);
    var s := RenderItem(it) + tail;
    assert Spaces(s) == 0 && s[0..] == s;
    hide Lex, RenderItem, TokenOf, MayFollow;
  }

  function Prepend(t: Token, tokens: Option<seq<Token>>): Option<seq<Token>> {
    match tokens case None => None case Some(ts) => Some([t] + ts)
  }

  /** An item and what follows it. */
  lemma TokensItem(it: Item, tail: seq<byte>)
    requires ItemOK(it) && MayFollow(it, tail)
    ensures Tokens(RenderItem(it) + tail) ==
      if TakesNext(it) && tail == [] then None else Prepend(TokenOf(it), Tokens(tail))
  {
    assert TakesNext(it) && tail != [] ==> IsSpace(tail[0]);
    hide Next, RenderItem, TokenOf, Tokens, ItemOK, MayFollow, TakesNext;
    var s := RenderItem(it);
    NextItem(it, tail);
    TokensStep(s + tail, it, if TakesNext(it) then 1 else 0);
    assert (s + tail)[|s|..] == tail;
    if TakesNext(it) && tail != [] {
      SkipSpace(tail[0], tail[1..]);
      assert (s + tail)[|s| + 1..] == tail[1..] && tail == [tail[0]] + tail[1..];
    }
  }

  /** Tokenizing undoes rendering, for every list of words and operators in
      every notation, with any white space between them or none where none is
      needed, and a comment at the end or not, unless the line ends with a
      redirection to a number. */
  lemma {:induction false} RoundTrip(parts: seq<Spaced>, end: seq<byte>)
    requires LineOK(parts, end)
    ensures forall part :: part in parts ==> ItemOK(part.item)
    ensures Tokens(Render(parts, end)) ==
      if parts != [] && end == [] && TakesNext(parts[|parts| - 1].item) then None else Some(TokensOf(parts))
  {
    if parts == [] {
      NoTokens(end);
    } else {
      var it, more := parts[0].item, Render(parts[1..], end);
      NotEmpty(parts[1..], end);
      hide RenderItem, TokenOf, Tokens, ItemOK, TakesNext, MayFollow, AllSpaces;
      SkipGap(parts[0].gap, RenderItem(it) + more);
      TokensItem(it, more);
      RoundTrip(parts[1..], end);
    }
  }

  lemma NotEmpty(parts: seq<Spaced>, end: seq<byte>)
    requires forall part :: part in parts ==> ItemOK(part.item)
    ensures Render(parts, end) == [] <==> parts == [] && end == []
  {
    hide ItemOK;
  }

  lemma NoTokens(end: seq<byte>)
    requires Spaces(end) == |end| || end[Spaces(end)] == 35
    ensures Tokens(end) == Some([])
  {
    hide ReadWord, Digits, Redirection;
  }

  lemma TokensStep(s: seq<byte>, it: Item, extra: nat)
    requires ItemOK(it)
    requires Next(s) == Lexeme(TokenOf(it).kind, TokenOf(it).text, |RenderItem(it)| + extra)
    ensures var used := |RenderItem(it)| + extra;
      Tokens(s) == if used > |s| then None else Prepend(TokenOf(it), Tokens(s[used..]))
  {
    hide Next, RenderItem, TokenOf;
  }

  // ---------------------------------------------------------- the tokenizer

  /** A string that doubles its capacity when it is full. */
  class BuildString {
    var s: array?<byte>
    var length: nat
    var capacity: nat

    constructor ()
      ensures Valid() && Contents() == [] && s == null
    {
      s, length, capacity := null, 0, 0;
    }

    ghost predicate Valid()
      reads this
    {
      length <= capacity && (if s == null then capacity == 0 else s.Length == capacity)
    }

    ghost function Contents(): seq<byte>
      requires Valid()
      reads this, s
    {
      if s == null then [] else s[..length]
    }

    /** `buildstring_append` */
    method Push(ch: byte)
      requires Valid()
      modifies this, s
      ensures Valid() && Contents() == old(Contents()) + [ch] && (s == old(s) || fresh(s))
      ensures length == old(length) + 1
    {
      if length == capacity {
        var newCapacity := if capacity != 0 then capacity * 2 else 32;
        var t := new byte[newCapacity];
        if s != null {
          forall i | 0 <= i < length { t[i] := s[i]; }
        }
        s, capacity := t, newCapacity;
      }
      s[length] := ch;
      length := length + 1;
    }

    /** `buildtoken.s`, up to the NUL that has been appended. */
    method Text() returns (text: seq<byte>)
      requires Valid() && Contents() != []
      ensures text == Contents()[..|Contents()| - 1]
    {
      text := s[..length - 1];
    }
  }

  /** `text` is a C string: a NUL, and no other. */
  predicate IsCString(text: seq<byte>) {
    text != [] && text[|text| - 1] == 0 && forall k :: 0 <= k < |text| - 1 ==> text[k] != 0
  }

  /** The string from a pointer into it. */
  function From(text: seq<byte>, i: nat): (s: seq<byte>)
    requires i < |text|
    ensures |s| == |text| - 1 - i
  {
    text[i..|text| - 1]
  }

  lemma FromAt(text: seq<byte>, i: nat)
    requires IsCString(text) && i < |text|
    ensures text[i] == At(From(text, i), 0)
    ensures i + 1 < |text| ==>
      text[i] != 0 && From(text, i) == [text[i]] + From(text, i + 1) && text[i + 1] == At(From(text, i), 1)
  {
  }

  lemma FromLater(text: seq<byte>, i: nat, k: nat)
    requires i + k < |text|
    ensures From(text, i)[k..] == From(text, i + k)
    ensures IsCString(text) ==> text[i + k] == At(From(text, i), k)
  {
  }

  lemma SpacesCons(c: byte, t: seq<byte>)
    ensures Spaces([c] + t) == if IsSpace(c) then 1 + Spaces(t) else 0
  {
  }

  method SkipSpaces(text: seq<byte>, str: nat) returns (i: nat)
    requires IsCString(text) && str < |text|
    ensures i == str + Spaces(From(text, str)) < |text|
  {
    i := str;
    while IsSpace(text[i])
      invariant str <= i < |text| && i + Spaces(From(text, i)) == str + Spaces(From(text, str))
      decreases |text| - i
    {
      FromAt(text, i);
      if i + 1 < |text| { SpacesCons(text[i], From(text, i + 1)); }
      i := i + 1;
    }
    FromAt(text, i);
    if i + 1 < |text| { SpacesCons(text[i], From(text, i + 1)); }
  }

  /** The characters between two pointers. */
  function Part(text: seq<byte>, i: nat, j: nat): seq<byte>
    requires i <= j <= |text|
  {
    text[i..j]
  }

  lemma PartNext(text: seq<byte>, i: nat, j: nat)
    requires i <= j < |text|
    ensures Part(text, i, j + 1) == Part(text, i, j) + [text[j]]
  {
  }

  lemma PartNone(text: seq<byte>, i: nat)
    requires i <= |text|
    ensures Part(text, i, i) == []
  {
  }

  /** `buildstring_append` of the next character of a token. */
  method PushNext(text: seq<byte>, ghost str: nat, k: nat, b: BuildString)
    requires str <= k < |text| && b.Valid() && b.Contents() == Part(text, str, k)
    modifies b, b.s
    ensures b.Valid() && b.Contents() == Part(text, str, k + 1) && (b.s == old(b.s) || fresh(b.s))
  {
    PartNext(text, str, k);
    hide Part;
    b.Push(text[k]);
  }

  ghost predicate DigitsTo(text: seq<byte>, str: nat, i: nat) {
    str <= i < |text| && i + Digits(From(text, i)) == str + Digits(From(text, str))
  }

  lemma DigitsNext(text: seq<byte>, str: nat, i: nat)
    requires IsCString(text) && DigitsTo(text, str, i)
    ensures if IsDigit(text[i]) then DigitsTo(text, str, i + 1) else i == str + Digits(From(text, str))
  {
  }

  /** The digits at `p` of a token that starts at `str`. */
  method TakeDigits(text: seq<byte>, ghost str: nat, p: nat, b: BuildString) returns (i: nat)
    requires IsCString(text) && str <= p < |text| && b.Valid() && b.Contents() == Part(text, str, p)
    modifies b, b.s
    ensures i == p + Digits(From(text, p)) < |text|
    ensures b.Valid() && b.Contents() == Part(text, str, i) && (b.s == old(b.s) || fresh(b.s))
  {
    i := p;
    while IsDigit(text[i])
      invariant DigitsTo(text, p, i) && b.Valid() && (b.s == old(b.s) || fresh(b.s))
      invariant b.Contents() == Part(text, str, i)
      decreases |text| - i
    {
      DigitsNext(text, p, i);
      PushNext(text, str, i, b);
      i := i + 1;
      hide *;
    }
    DigitsNext(text, p, i);
    hide *;
  }

  datatype Turn = Turn(pushed: seq<byte>, used: nat, quoted: byte)

  /** One turn of the loop over a word. */
  function WordTurn(s: seq<byte>, quoted: byte): (r: Turn)
    requires s != []
    ensures 0 < r.used <= |s|
  {
    var c := s[0];
    if (c == 34 || c == 39) && quoted == 0 then Turn([], 1, c)
    else if c == quoted then Turn([], 1, 0)
    else if c == 92 && At(s, 1) != 0 && |s| > 1 && quoted != 39 then Turn([s[1]], 2, quoted)
    else Turn([c], 1, quoted)
  }

  lemma ReadTurn(s: seq<byte>, quoted: byte)
    requires s != [] && 0 !in s && (quoted != 0 || (!IsSpace(s[0]) && !IsSpecial(s[0])))
    ensures var t := WordTurn(s, quoted); var w := ReadWord(s[t.used..], t.quoted);
      ReadWord(s, quoted) == Word(t.pushed + w.text, t.used + w.used)
  {
  }

  lemma ReadStop(s: seq<byte>, quoted: byte)
    requires s == [] || (quoted == 0 && (IsSpace(s[0]) || IsSpecial(s[0])))
    ensures ReadWord(s, quoted) == Word([], 0)
  {
  }

  /** What the word loop has still to read, and has read. */
  ghost predicate Reading(text: seq<byte>, str: nat, i: nat, quoted: byte, before: seq<byte>, now: seq<byte>) {
    str <= i < |text| && str < |text|
    && var all, w := ReadWord(From(text, str), 0), ReadWord(From(text, i), quoted);
       now + w.text == before + all.text && i + w.used == str + all.used
  }

  lemma NoNul(text: seq<byte>, i: nat)
    requires IsCString(text) && i < |text|
    ensures 0 !in From(text, i)
  {
  }

  lemma ReadingNext(text: seq<byte>, str: nat, i: nat, quoted: byte, before: seq<byte>, now: seq<byte>)
    requires IsCString(text) && Reading(text, str, i, quoted, before, now) && text[i] != 0
    requires quoted != 0 || (!IsSpace(text[i]) && !IsSpecial(text[i]))
    ensures i + 1 < |text| && From(text, i) != []
    ensures var t := WordTurn(From(text, i), quoted); Reading(text, str, i + t.used, t.quoted, before, now + t.pushed)
  {
    FromAt(text, i);
    NoNul(text, i);
    hide ReadWord, WordTurn, IsSpace, IsSpecial, IsCString, From;
    var s := From(text, i);
    var t := WordTurn(s, quoted);
    ReadTurn(s, quoted);
    FromLater(text, i, t.used);
    var w := ReadWord(From(text, i + t.used), t.quoted);
    assert now + (t.pushed + w.text) == (now + t.pushed) + w.text;
  }

  /** The loop over a normal token. */
  method TakeWord(text: seq<byte>, str: nat, b: BuildString) returns (i: nat)
    requires IsCString(text) && str < |text| && b.Valid()
    modifies b, b.s
    ensures i == str + ReadWord(From(text, str), 0).used < |text|
    ensures b.Valid() && b.Contents() == old(b.Contents()) + ReadWord(From(text, str), 0).text
      && (b.s == old(b.s) || fresh(b.s))
  {
    i := str;
    var quoted: byte := 0;
    while (text[i] != 0 && quoted != 0) || (text[i] != 0 && !IsSpace(text[i]) && !IsSpecial(text[i]))
      invariant b.Valid() && (b.s == old(b.s) || fresh(b.s))
      invariant Reading(text, str, i, quoted, old(b.Contents()), b.Contents())
      decreases |text| - i
    {
      ReadingNext(text, str, i, quoted, old(b.Contents()), b.Contents());
      i, quoted := TakeTurn(text, i, quoted, b);
    }
    FromAt(text, i);
    ReadStop(From(text, i), quoted);
    hide ReadWord;
  }

  /** The body of that loop. */
  method TakeTurn(text: seq<byte>, i: nat, quoted: byte, b: BuildString) returns (j: nat, quoted': byte)
    requires IsCString(text) && b.Valid() && i + 1 < |text|
    modifies b, b.s
    ensures var t := WordTurn(From(text, i), quoted);
      j == i + t.used && quoted' == t.quoted && b.Valid() && b.Contents() == old(b.Contents()) + t.pushed
    ensures b.s == old(b.s) || fresh(b.s)
  {
    FromAt(text, i);
    j, quoted' := i, quoted;
    if (text[i] == 34 || text[i] == 39) && quoted == 0 {
      quoted' := text[i];
    } else if text[i] == quoted {
      quoted' := 0;
    } else if text[i] == 92 && text[i + 1] != 0 && quoted != 39 {
      b.Push(text[i + 1]);
      j := j + 1;
    } else {
      b.Push(text[i]);
    }
    j := j + 1;
  }

  lemma FromText(text: seq<byte>, str: nat, e: nat)
    requires str <= e < |text|
    ensures From(text, str)[..e - str] == Part(text, str, e)
  {
  }

  /** `Redirection` in terms of pointers. */
  lemma RedirectionFrom(text: seq<byte>, str: nat, d: nat)
    requires IsCString(text) && str <= d && d + 1 < |text|
    ensures text[d + 1] == 62 ==>
      d + 2 < |text| && Redirection(From(text, str), d - str)
        == Lexeme(REDIRECTION, Part(text, str, d + 2), d + 2 - str)
    ensures text[d + 1] == 38 ==> d + 2 < |text|
    ensures text[d + 1] == 38 && IsDigit(text[d + 2]) ==>
      (var e := d + 2 + Digits(From(text, d + 2));
       e < |text| && Redirection(From(text, str), d - str) == Lexeme(REDIRECTION, Part(text, str, e), e + 1 - str))
    ensures text[d + 1] != 62 && !(text[d + 1] == 38 && IsDigit(text[d + 2])) ==>
      Redirection(From(text, str), d - str) == Lexeme(REDIRECTION, Part(text, str, d + 1), d + 1 - str)
  {
    hide Digits;
    FromLater(text, str, d + 1 - str);
    FromText(text, str, d + 1);
    if d + 2 < |text| {
      FromLater(text, str, d + 2 - str);
      FromText(text, str, d + 2);
      var e := d + 2 + Digits(From(text, d + 2));
      FromText(text, str, e);
    }
  }

  /** The redirection branch, from the arrow at `d` of a token at `str`. */
  method TakeRedirection(text: seq<byte>, ghost str: nat, d: nat, b: BuildString) returns (i: nat)
    requires IsCString(text) && str <= d && d + 1 < |text|
    requires b.Valid() && b.Contents() == Part(text, str, d)
    modifies b, b.s
    ensures str <= i && b.Valid() && Redirection(From(text, str), d - str) == Lexeme(REDIRECTION, b.Contents(), i - str)
    ensures b.s == old(b.s) || fresh(b.s)
  {
    hide *;
    PushNext(text, str, d, b);
    i := TakeSuffix(text, str, d, b);
  }

  /** The rest of that branch, after the arrow. */
  method TakeSuffix(text: seq<byte>, ghost str: nat, d: nat, b: BuildString) returns (i: nat)
    requires IsCString(text) && str <= d && d + 1 < |text|
    requires b.Valid() && b.Contents() == Part(text, str, d + 1)
    modifies b, b.s
    ensures str <= i && b.Valid() && Redirection(From(text, str), d - str) == Lexeme(REDIRECTION, b.Contents(), i - str)
    ensures b.s == old(b.s) || fresh(b.s)
  {
    RedirectionFrom(text, str, d);
    hide *;
    i := d;
    if text[i + 1] == 62 {
      PushNext(text, str, i + 1, b);
      i := i + 1;
    } else if text[i + 1] == 38 && IsDigit(text[i + 2]) {
      PushNext(text, str, i + 1, b);
      i := TakeDigits(text, str, i + 2, b);
    }
    i := i + 1;
  }

  /** `Lex` in terms of pointers; `p` is after the digits. */
  lemma LexFrom(text: seq<byte>, str: nat, p: nat)
    requires IsCString(text) && str < |text| && !IsSpace(text[str]) && text[str] != 0 && text[str] != 35
    requires p == str + Digits(From(text, str))
    ensures p < |text| && (text[p] != 0 ==> p + 1 < |text|) && !IsSpace(At(From(text, str), 0))
    ensures Lex(From(text, str)) ==
      if text[p] == 60 || text[p] == 62 then Redirection(From(text, str), p - str)
      else if p == str && (text[p] == 38 || text[p] == 124) && text[p + 1] == text[p] then
        Lexeme(if text[p] == 38 then AND else OR, [text[p], text[p]], 2)
      else if p == str && IsSpecial(text[p]) then Lexeme(Operator(text[p]), [text[p]], 1)
      else
        var w := ReadWord(From(text, p), 0); Lexeme(NORMAL, Part(text, str, p) + w.text, p - str + w.used)
  {
    var s := From(text, str);
    FromAt(text, str);
    FromLater(text, str, p - str);
    FromText(text, str, p);
    if text[p] != 0 { FromLater(text, str, p + 1 - str); }
    LexCases(s, p - str);
    if p == str && text[p] != 0 && text[p + 1] == text[p] { assert s[..2] == [text[p], text[p]]; }
    assert s[..1] == [s[0]];
    hide Digits, ReadWord, Redirection, Lex, From, IsSpace, IsSpecial;
  }

  /** The branches of `Lex`. */
  lemma LexCases(s: seq<byte>, d: nat)
    requires s != [] && !IsSpace(s[0]) && s[0] != 35 && d == Digits(s)
    ensures !IsSpace(At(s, 0))
    ensures At(s, d) == 60 || At(s, d) == 62 ==> d < |s| && Lex(s) == Redirection(s, d)
    ensures d == 0 && (s[0] == 38 || s[0] == 124) && At(s, 1) == s[0] ==>
      |s| > 1 && Lex(s) == Lexeme(if s[0] == 38 then AND else OR, s[..2], 2)
    ensures
      d == 0 && IsSpecial(s[0]) && !(At(s, d) == 60 || At(s, d) == 62)
      && !((s[0] == 38 || s[0] == 124) && At(s, 1) == s[0]) ==>
      Lex(s) == Lexeme(Operator(s[0]), s[..1], 1)
    ensures !(At(s, d) == 60 || At(s, d) == 62) && !(d == 0 && IsSpecial(s[0])) ==>
      (var w := ReadWord(s[d..], 0); Lex(s) == Lexeme(NORMAL, s[..d] + w.text, d + w.used))
  {
  }

  /** The branches after the digits of a token at `str` have been read. */
  method TakeToken(text: seq<byte>, ghost str: nat, p: nat, b: BuildString) returns (i: nat, kind: Kind)
    requires IsCString(text) && str < |text| && !IsSpace(text[str]) && text[str] != 0 && text[str] != 35
    requires p == str + Digits(From(text, str)) && b.Valid() && b.Contents() == Part(text, str, p)
    modifies b, b.s
    ensures str <= i && !IsSpace(At(From(text, str), 0))
    ensures b.Valid() && Lex(From(text, str)) == Lexeme(kind, b.Contents(), i - str)
    ensures b.s == old(b.s) || fresh(b.s)
  {
    LexFrom(text, str, p);
    assert b.length == p - str;
    hide Lex, Digits, ReadWord, Redirection, BuildString.Valid, BuildString.Contents, At, From, Part;
    i := p;
    if text[i] == 60 || text[i] == 62 {
      kind := REDIRECTION;
      i := TakeRedirection(text, str, p, b);
    } else if b.length == 0 && (text[i] == 38 || text[i] == 124) && text[i + 1] == text[i] {
      kind := if text[i] == 38 then AND else OR;
      b.Push(text[i]);
      b.Push(text[i + 1]);
      i := i + 2;
    } else if b.length == 0 && IsSpecial(text[i]) {
      kind := Operator(text[i]);
      b.Push(text[i]);
      i := i + 1;
    } else {
      kind := NORMAL;
      i := TakeWord(text, p, b);
    }
  }

  lemma LexEnd(text: seq<byte>, i: nat)
    requires IsCString(text) && i < |text| && (text[i] == 0 || text[i] == 35)
    ensures !IsSpace(At(From(text, i), 0)) && Lex(From(text, i)) == End
  {
  }

  /** `Next` in terms of pointers; `i` is after the spaces. */
  lemma NextFrom(text: seq<byte>, str: nat, i: nat)
    requires IsCString(text) && str < |text| && i == str + Spaces(From(text, str))
    ensures i < |text| && !IsSpace(text[i]) && !IsSpace(At(From(text, i), 0))
    ensures Next(From(text, str)) ==
      match Lex(From(text, i)) case End => End case Lexeme(kind, t, used) => Lexeme(kind, t, i - str + used)
  {
  }

  /** `parse_shell_token`.  No character after the NUL is read; the pointer
      that is returned is past the NUL in just one case (`PastTheEnd`). */
  method ParseShellToken(text: seq<byte>, str: Option<nat>)
      returns (next: Option<nat>, kind: Kind, token: Option<seq<byte>>)
    requires IsCString(text) && (str.Some? ==> str.value < |text|)
    ensures str == None ==> next == None && kind == SEQUENCE && token == None
    ensures str.Some? ==>
      match Next(From(text, str.value))
      case End => next == None && kind == SEQUENCE && token == None
      case Lexeme(k, t, used) => next == Some(str.value + used) && kind == k && token == Some(t)
  {
    next, kind, token := None, SEQUENCE, None;
    if str == None { return; }
    var start := SkipSpaces(text, str.value);
    NextFrom(text, str.value, start);
    hide Lex, Next, Digits, Spaces, At, From, Part, BuildString.Valid, BuildString.Contents;
    if text[start] == 0 || text[start] == 35 {
      LexEnd(text, start);
      return;
    }
    var b := new BuildString();
    PartNone(text, start);
    var p := TakeDigits(text, start, start, b);
    var i;
    i, kind := TakeToken(text, start, p, b);
    ghost var built := b.Contents();
    b.Push(0);
    var t := b.Text();
    assert t == built;
    next, token := Some(i), Some(t);
  }
}
