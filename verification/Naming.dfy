/** The C names of Go types and of function signatures. */
module Naming {
  import opened Options
  import opened Encoding

  datatype Kind =
    | Bool | UntypedBool | Complex64 | Complex128 | Float32 | Float64
    | Int | Int8 | Int16 | Int32 | Int64 | Invalid | String | UntypedString | UnsafePointer
    | Uint | Uint8 | Uint16 | Uint32 | Uint64 | Uintptr

  datatype Direction = Both | SendOnly | ReceiveOnly

  /** Go types, as far as names look into them. Named and struct types carry the text the type checker
      gives for them. */
  datatype Type =
    | Array(elem: Type, len: nat)
    | Basic(kind: Kind)
    | Chan(dir: Direction, elem: Type)
    | Interface(methods: string)
    | Map(key: Type, elem: Type)
    | Named(text: string, underlying: Type)
    | Pointer(elem: Type)
    | Signature(text: string)
    | Slice(elem: Type)
    | Struct(text: string)
    | Tuple(elems: seq<Type>)
    | Iter

  function KindWord(k: Kind): string {
    match k
    case Bool => "BoolObject"
    case UntypedBool => "BoolObject"
    case Complex64 => "Complex64Object"
    case Complex128 => "Complex128Object"
    case Float32 => "Float32Object"
    case Float64 => "Float64Object"
    case Int => "IntObject"
    case Int8 => "Int8Object"
    case Int16 => "Int16Object"
    case Int32 => "Int32Object"
    case Int64 => "Int64Object"
    case Invalid => "InvalidObject"
    case String => "StringObject"
    case UntypedString => "StringObject"
    case UnsafePointer => "UnsafePointerObject"
    case Uint => "UintObject"
    case Uint8 => "Uint8Object"
    case Uint16 => "Uint16Object"
    case Uint32 => "Uint32Object"
    case Uint64 => "Uint64Object"
    case Uintptr => "UintptrObject"
  }

  /** The name of a type before it is encoded. */
  function RawName(t: Type): string {
    match t
    case Array(elem, len) => "Array" + (['<'] + (RawName(elem) + (['$'] + (Decimal(len) + ['>']))))
    case Basic(kind) => KindWord(kind)
    case Chan(_, elem) => "Channel" + (['<'] + (RawName(elem) + ['>']))
    case Interface(_) => "Interface"
    case Map(key, elem) => "Map" + (['<'] + (RawName(key) + (['$'] + (RawName(elem) + ['>']))))
    case Named(text, underlying) => "Named" + (['<'] + (text + (['$'] + (RawName(underlying) + ['>']))))
    case Pointer(elem) => "Pointer" + (['<'] + (RawName(elem) + ['>']))
    case Signature(_) => "FunctionObject"
    case Slice(elem) => "Slice" + (['<'] + (RawName(elem) + ['>']))
    case Struct(text) => "Struct" + (['<'] + (text + ['>']))
    case Tuple(elems) => "Tuple" + (['<'] + (RawNames(elems) + ['>']))
    case Iter => "IterObject"
  }

  /** The names of the members of a tuple, separated. */
  function RawNames(ts: seq<Type>): string {
    if ts == [] then "" else RawName(ts[0]) + (if |ts| == 1 then "" else ['$'] + RawNames(ts[1..]))
  }

  /** What a name leaves out of a type: the direction of channels, the contents of interfaces and
      signatures, and whether a bool or a string is untyped. */
  function Erase(t: Type): Type {
    match t
    case Array(elem, len) => Array(Erase(elem), len)
    case Basic(kind) => Basic(match kind case UntypedBool => Bool case UntypedString => String case _ => kind)
    case Chan(_, elem) => Chan(Both, Erase(elem))
    case Interface(_) => Interface("")
    case Map(key, elem) => Map(Erase(key), Erase(elem))
    case Named(text, underlying) => Named(text, Erase(underlying))
    case Pointer(elem) => Pointer(Erase(elem))
    case Signature(_) => Signature("")
    case Slice(elem) => Slice(Erase(elem))
    case Struct(_) => t
    case Tuple(elems) => Tuple(EraseAll(elems))
    case Iter => Iter
  }

  function EraseAll(ts: seq<Type>): (r: seq<Type>)
    ensures |r| == |ts|
  {
    if ts == [] then [] else [Erase(ts[0])] + EraseAll(ts[1..])
  }

  /** Where a reader of the text of a struct type stands: how deep in braces, and whether in a quoted tag. */
  datatype Scan = Scan(depth: int, quoted: bool, escaped: bool)

  function Next(s: Scan, c: char): Scan {
    if s.quoted then
      if s.escaped then s.(escaped := false) else if c == '\\' then s.(escaped := true) else s.(quoted := c != '"')
    else
      match c
      case '"' => s.(quoted := true)
      case '{' => s.(depth := s.depth + 1)
      case '}' => s.(depth := s.depth - 1)
      case _ => s
  }

  function ScanText(s: string): Scan {
    if s == "" then Scan(0, false, false) else Next(ScanText(s[..|s| - 1]), s[|s| - 1])
  }

  predicate Closes(s: string) {
    s != "" && s[|s| - 1] == '}' && ScanText(s) == Scan(0, false, false)
  }

  /** A struct type's text ends with the brace that closes it; tags are quoted. */
  predicate IsStructText(s: string) {
    Closes(s) && forall k | 0 <= k < |s| :: !Closes(s[..k])
  }

  /** The text of a named type has no `$`, that of a struct type is one, and all is ASCII. */
  predicate Printable(t: Type) {
    match t
    case Array(elem, _) => Printable(elem)
    case Chan(_, elem) => Printable(elem)
    case Map(key, elem) => Printable(key) && Printable(elem)
    case Named(text, underlying) => '$' !in text && IsAscii(text) && Printable(underlying)
    case Pointer(elem) => Printable(elem)
    case Slice(elem) => Printable(elem)
    case Struct(text) => IsStructText(text) && IsAscii(text)
    case Tuple(elems) => forall i | 0 <= i < |elems| :: Printable(elems[i])
    case _ => true
  }

  // ----- struct types have such texts

  /** What the text of a struct type is made of between its braces: text with neither quotes nor braces,
      quoted tags, and braces again, of the structs and interfaces inside. A tag has characters that are
      escaped (then the flag is set) and characters that need not be. */
  datatype Piece = Bare(c: char) | Tag(chars: seq<(bool, char)>) | Braces(inner: seq<Piece>)

  predicate IsPiece(p: Piece) {
    match p
    case Bare(c) => c != '"' && c != '{' && c != '}'
    case Tag(chars) => forall q | q in chars :: q.0 || (q.1 != '"' && q.1 != '\\')
    case Braces(inner) => forall i | 0 <= i < |inner| :: IsPiece(inner[i])
  }

  function TagText(chars: seq<(bool, char)>): string {
    if chars == [] then "" else (if chars[0].0 then ['\\', chars[0].1] else [chars[0].1]) + TagText(chars[1..])
  }

  function PieceText(p: Piece): string {
    match p
    case Bare(c) => [c]
    case Tag(chars) => ['"'] + (TagText(chars) + ['"'])
    case Braces(inner) => ['{'] + (PiecesText(inner) + ['}'])
  }

  function PiecesText(ps: seq<Piece>): string {
    if ps == [] then "" else PieceText(ps[0]) + PiecesText(ps[1..])
  }

  /** Where a reader stands after a text, having started at `s`. */
  function After(s: Scan, text: string): Scan {
    if text == "" then s else Next(After(s, text[..|text| - 1]), text[|text| - 1])
  }

  lemma {:induction false} AfterBoth(s: Scan, x: string, y: string)
    ensures After(s, x + y) == After(After(s, x), y)
    decreases |y|
  {
    if y == "" {
      assert x + y == x;
    } else {
      assert (x + y)[..|x + y| - 1] == x + y[..|y| - 1];
      AfterBoth(s, x, y[..|y| - 1]);
    }
  }

  lemma AfterOne(s: Scan, c: char, y: string)
    ensures After(s, [c]) == Next(s, c) && After(s, [c] + y) == After(Next(s, c), y)
  {
    assert [c][..0] == "";
    AfterBoth(s, [c], y);
  }

  /** Reading the text never goes below depth `d`, and ends at `end`. */
  ghost predicate Goes(s: Scan, text: string, d: int, end: Scan) {
    After(s, text) == end && forall k | 0 <= k <= |text| :: After(s, text[..k]).depth >= d
  }

  lemma GoesBoth(s: Scan, x: string, mid: Scan, y: string, d: int, end: Scan)
    requires Goes(s, x, d, mid) && Goes(mid, y, d, end)
    ensures Goes(s, x + y, d, end)
  {
    AfterBoth(s, x, y);
    forall k | 0 <= k <= |x + y| ensures After(s, (x + y)[..k]).depth >= d {
      if k <= |x| {
        assert (x + y)[..k] == x[..k];
      } else {
        assert (x + y)[..k] == x + y[..k - |x|];
        AfterBoth(s, x, y[..k - |x|]);
      }
    }
  }

  lemma GoesOne(s: Scan, c: char, d: int)
    requires s.depth >= d && Next(s, c).depth >= d
    ensures Goes(s, [c], d, Next(s, c))
  {
    AfterOne(s, c, "");
    forall k | 0 <= k <= 1 ensures After(s, [c][..k]).depth >= d {
      assert [c][..k] == if k == 0 then "" else [c];
    }
  }

  lemma {:induction false} TagGoes(chars: seq<(bool, char)>, d: int)
    requires IsPiece(Tag(chars))
    ensures Goes(Scan(d, true, false), TagText(chars), d, Scan(d, true, false))
    decreases |chars|
  {
    var s := Scan(d, true, false);
    if chars != [] {
      assert chars[0] in chars && forall q | q in chars[1..] :: q in chars;
      TagGoes(chars[1..], d);
      var c := chars[0].1;
      if chars[0].0 {
        var mid := Scan(d, true, true);
        GoesOne(s, '\\', d);
        GoesOne(mid, c, d);
        GoesBoth(s, ['\\'], mid, [c], d, s);
        assert ['\\'] + [c] == ['\\', c];
        GoesBoth(s, ['\\', c], s, TagText(chars[1..]), d, s);
      } else {
        GoesOne(s, c, d);
        GoesBoth(s, [c], s, TagText(chars[1..]), d, s);
      }
    }
  }

  /** Any piece is read from one depth back to the same, outside quotes. */
  lemma {:induction false} PieceGoes(p: Piece, d: int)
    requires IsPiece(p)
    ensures Goes(Scan(d, false, false), PieceText(p), d, Scan(d, false, false))
    decreases p, 0
  {
    var s := Scan(d, false, false);
    match p
    case Bare(c) => GoesOne(s, c, d);
    case Tag(chars) =>
      var quoted := Scan(d, true, false);
      GoesOne(s, '"', d);
      TagGoes(chars, d);
      GoesOne(quoted, '"', d);
      GoesBoth(quoted, TagText(chars), quoted, ['"'], d, s);
      GoesBoth(s, ['"'], quoted, TagText(chars) + ['"'], d, s);
    case Braces(inner) =>
      BracesGo(inner, d, d);
  }

  lemma {:induction false} PiecesGo(ps: seq<Piece>, d: int)
    requires forall i | 0 <= i < |ps| :: IsPiece(ps[i])
    ensures Goes(Scan(d, false, false), PiecesText(ps), d, Scan(d, false, false))
    decreases ps, 0
  {
    var s := Scan(d, false, false);
    if ps != [] {
      PieceGoes(ps[0], d);
      PiecesGo(ps[1..], d);
      GoesBoth(s, PieceText(ps[0]), s, PiecesText(ps[1..]), d, s);
    }
  }

  lemma {:induction false} BracesGo(inner: seq<Piece>, d: int, low: int)
    requires (forall i | 0 <= i < |inner| :: IsPiece(inner[i])) && low == d
    ensures Goes(Scan(d, false, false), PieceText(Braces(inner)), low, Scan(d, false, false))
    ensures Goes(Scan(d + 1, false, false), PiecesText(inner), d + 1, Scan(d + 1, false, false))
    decreases inner, 1
  {
    var s, deeper := Scan(d, false, false), Scan(d + 1, false, false);
    PiecesGo(inner, d + 1);
    GoesOne(s, '{', d);
    GoesOne(deeper, '}', d);
    GoesBoth(deeper, PiecesText(inner), deeper, ['}'], d, s);
    GoesBoth(s, ['{'], deeper, PiecesText(inner) + ['}'], d, s);
  }

  lemma {:induction false} ScanIsAfter(text: string)
    ensures ScanText(text) == After(Scan(0, false, false), text)
    decreases |text|
  {
    if text != "" { ScanIsAfter(text[..|text| - 1]); }
  }

  const STRUCT := "struct"

  /** The text of any struct type, `struct` and its fields in braces, with tags and nested types, is one that
      ends where it closes, so assuming that of texts excludes none. */
  lemma StructTextsClose(fields: seq<Piece>)
    requires forall i | 0 <= i < |fields| :: IsPiece(fields[i])
    ensures IsStructText(STRUCT + PieceText(Braces(fields)))
  {
    var zero, one, inner := Scan(0, false, false), Scan(1, false, false), PiecesText(fields);
    var text := STRUCT + PieceText(Braces(fields));
    hide Next, After;
    BracesGo(fields, 0, 0);
    StructIsBare();
    AfterBoth(zero, STRUCT, PieceText(Braces(fields)));
    ScanIsAfter(text);
    assert text == (STRUCT + ['{']) + (inner + ['}']);
    forall k | 0 <= k < |text| ensures !Closes(text[..k]) { PrefixIsOpen(inner, k); }
  }

  /** Before its last brace, the text of a struct type does not close. */
  lemma PrefixIsOpen(inner: string, k: nat)
    requires Goes(Scan(1, false, false), inner, 1, Scan(1, false, false)) && k < 8 + |inner|
    ensures !Closes((STRUCT + (['{'] + (inner + ['}'])))[..k])
  {
    hide Next, After;
    var zero, one := Scan(0, false, false), Scan(1, false, false);
    var text := STRUCT + (['{'] + (inner + ['}']));
    var t := text[..k];
    ScanIsAfter(t);
    StructIsBare();
    if k <= 6 {
      assert t == STRUCT[..k];
      assert t != "" ==> t[k - 1] == STRUCT[k - 1];
    } else {
      var rest := inner[..k - 7];
      assert t == STRUCT + (['{'] + rest);
      AfterBoth(zero, STRUCT, ['{'] + rest);
      AfterOne(zero, '{', rest);
      OpensOne();
    }
  }

  lemma OpensOne()
    ensures Next(Scan(0, false, false), '{') == Scan(1, false, false)
  {
  }

  lemma StructIsBare()
    ensures |STRUCT| == 6 && forall k | 0 <= k < 6 :: STRUCT[k] != '}'
    ensures After(Scan(0, false, false), STRUCT) == Scan(0, false, false)
  {
    var zero := Scan(0, false, false);
    assert STRUCT[..5] == "struc" && STRUCT[..5][..4] == "stru" && STRUCT[..5][..4][..3] == "str";
    assert "str"[..2] == "st" && "st"[..1] == "s" && "s"[..0] == "";
    assert After(zero, "s") == zero;
    assert After(zero, "st") == zero;
    assert After(zero, "str") == zero;
    assert After(zero, "stru") == zero;
    assert After(zero, "struc") == zero;
  }

  /** Nor does it exclude types that are built without naming types or structs. */
  lemma OthersArePrintable(t: Type)
    requires t.Basic? || t.Interface? || t.Signature? || t.Iter?
    ensures Printable(t) && Printable(Pointer(t)) && Printable(Slice(t)) && Printable(Array(t, 0))
    ensures Printable(Chan(Both, t)) && Printable(Map(t, t)) && Printable(Tuple([t, t]))
  {
  }

  /** The word a name begins with; the rest of the name is empty or begins with `<`. */
  function Word(t: Type): string {
    match t
    case Array(_, _) => "Array"
    case Basic(kind) => KindWord(kind)
    case Chan(_, _) => "Channel"
    case Interface(_) => "Interface"
    case Map(_, _) => "Map"
    case Named(_, _) => "Named"
    case Pointer(_) => "Pointer"
    case Signature(_) => "FunctionObject"
    case Slice(_) => "Slice"
    case Struct(_) => "Struct"
    case Tuple(_) => "Tuple"
    case Iter => "IterObject"
  }

  predicate IsWord(s: string) {
    s != "" && forall i | 0 <= i < |s| :: IsPlain(s[i])
  }

  /** The outermost shape of a type, up to what names leave out. */
  function Shape(t: Type): nat {
    match t
    case Array(_, _) => 0
    case Chan(_, _) => 1
    case Interface(_) => 2
    case Map(_, _) => 3
    case Named(_, _) => 4
    case Pointer(_) => 5
    case Signature(_) => 6
    case Slice(_) => 7
    case Struct(_) => 8
    case Tuple(_) => 9
    case Iter => 10
    case Basic(kind) =>
      match kind
      case Bool => 11
      case UntypedBool => 11
      case Complex64 => 12
      case Complex128 => 13
      case Float32 => 14
      case Float64 => 15
      case Int => 16
      case Int8 => 17
      case Int16 => 18
      case Int32 => 19
      case Int64 => 20
      case Invalid => 21
      case String => 22
      case UntypedString => 22
      case UnsafePointer => 23
      case Uint => 24
      case Uint8 => 25
      case Uint16 => 26
      case Uint32 => 27
      case Uint64 => 28
      case Uintptr => 29
  }

  const WORDS: seq<string> := [
    "Array", "Channel", "Interface", "Map", "Named", "Pointer", "FunctionObject", "Slice", "Struct", "Tuple",
    "IterObject", "BoolObject", "Complex64Object", "Complex128Object", "Float32Object", "Float64Object",
    "IntObject", "Int8Object", "Int16Object", "Int32Object", "Int64Object", "InvalidObject", "StringObject",
    "UnsafePointerObject", "UintObject", "Uint8Object", "Uint16Object", "Uint32Object", "Uint64Object", "UintptrObject"]

  lemma WordOfShape(t: Type)
    ensures Shape(t) < |WORDS| && Word(t) == WORDS[Shape(t)]
  {
    if t.Basic? { WordOfKind(t.kind); }
  }

  lemma WordOfKind(k: Kind)
    ensures Shape(Basic(k)) < |WORDS| && KindWord(k) == WORDS[Shape(Basic(k))]
  {
  }

  lemma WordsAreDistinct()
    ensures forall i, j | 0 <= i < j < |WORDS| :: WORDS[i] != WORDS[j]
  {
  }

  predicate IsIntegerKind(k: Kind) {
    match k
    case Uint | Uint8 | Uint16 | Uint32 | Uint64 | Uintptr | Int | Int8 | Int16 | Int32 | Int64 => true
    case _ => false
  }

  predicate IsFloatingKind(k: Kind) {
    k.Float32? || k.Float64? || k.Complex64? || k.Complex128?
  }

  lemma IntegerWordsArePlain(k: Kind)
    requires IsIntegerKind(k)
    ensures IsWord(KindWord(k))
  {
  }

  lemma OtherWordsArePlain(k: Kind)
    requires !IsIntegerKind(k) && !IsFloatingKind(k)
    ensures IsWord(KindWord(k))
  {
  }

  lemma FloatingWordsArePlain(k: Kind)
    requires IsFloatingKind(k)
    ensures IsWord(KindWord(k))
  {
  }

  lemma KindWordsArePlain(k: Kind)
    ensures IsWord(KindWord(k))
  {
    hide *;
    if IsIntegerKind(k) {
      IntegerWordsArePlain(k);
    } else if IsFloatingKind(k) {
      FloatingWordsArePlain(k);
    } else {
      OtherWordsArePlain(k);
    }
  }

  lemma WordsArePlain(t: Type)
    ensures IsWord(Word(t))
  {
    hide KindWord;
    if t.Basic? { KindWordsArePlain(t.kind); }
  }

  /** What comes after a name that is part of a longer one. */
  predicate Ends(r: string) {
    r == "" || r[0] == '$' || r[0] == '>'
  }

  predicate StartsPlain(s: string) {
    s != "" && IsPlain(s[0])
  }

  /** The length of the word a text begins with. */
  function WordLength(s: string): (n: nat)
    ensures n <= |s|
  {
    if StartsPlain(s) then 1 + WordLength(s[1..]) else 0
  }

  lemma {:induction false} WordLengthIs(w: string, s: string)
    requires (forall i | 0 <= i < |w| :: IsPlain(w[i])) && !StartsPlain(s)
    ensures WordLength(w + s) == |w|
    decreases |w|
  {
    if w == "" {
      assert w + s == s;
    } else {
      assert (w + s)[0] == w[0] && (w + s)[1..] == w[1..] + s;
      WordLengthIs(w[1..], s);
    }
  }

  lemma WordEnds(w: string, s: string, w': string, s': string)
    requires IsWord(w) && IsWord(w') && !StartsPlain(s) && !StartsPlain(s') && w + s == w' + s'
    ensures w == w' && s == s'
  {
    WordLengthIs(w, s);
    WordLengthIs(w', s');
    var t := w + s;
    assert t[..|w|] == w && t[..|w'|] == w' && t[|w|..] == s && t[|w'|..] == s';
  }

  // ----- names followed by more text

  /** The name of a type, followed by `r`. */
  function NameThen(t: Type, r: string): string
    decreases t, 1
  {
    Word(t) + AfterWord(t, r)
  }

  function AfterWord(t: Type, r: string): string
    decreases t, 0
  {
    match t
    case Array(elem, len) => ['<'] + NameThen(elem, ['$'] + (Decimal(len) + (['>'] + r)))
    case Chan(_, elem) => ['<'] + NameThen(elem, ['>'] + r)
    case Map(key, elem) => ['<'] + NameThen(key, ['$'] + NameThen(elem, ['>'] + r))
    case Named(text, underlying) => ['<'] + (text + (['$'] + NameThen(underlying, ['>'] + r)))
    case Pointer(elem) => ['<'] + NameThen(elem, ['>'] + r)
    case Slice(elem) => ['<'] + NameThen(elem, ['>'] + r)
    case Struct(text) => ['<'] + (text + (['>'] + r))
    case Tuple(elems) => ['<'] + NamesThen(elems, ['>'] + r)
    case _ => r
  }

  function NamesThen(ts: seq<Type>, r: string): string
    decreases ts, 1
  {
    if ts == [] then r else NameThen(ts[0], if |ts| == 1 then r else ['$'] + NamesThen(ts[1..], r))
  }

  lemma ConsIsInjective(c: char, s: string, d: char, t: string)
    requires [c] + s == [d] + t
    ensures c == d && s == t
  {
    assert ([c] + s)[0] == c && ([d] + t)[0] == d;
    assert ([c] + s)[1..] == s && ([d] + t)[1..] == t;
  }

  lemma AfterWordStops(t: Type, r: string)
    requires Ends(r)
    ensures !StartsPlain(AfterWord(t, r))
  {
  }

  /** Two names that begin alike have the same word, and the rests agree. */
  lemma SameShape(t: Type, r: string, u: Type, q: string)
    requires Ends(r) && Ends(q) && NameThen(t, r) == NameThen(u, q)
    ensures Shape(t) == Shape(u) && AfterWord(t, r) == AfterWord(u, q)
  {
    AfterWordStops(t, r);
    AfterWordStops(u, q);
    hide Word, AfterWord, Shape, IsWord, Ends, StartsPlain, WORDS;
    WordsArePlain(t);
    WordsArePlain(u);
    WordEnds(Word(t), AfterWord(t, r), Word(u), AfterWord(u, q));
    WordOfShape(t);
    WordOfShape(u);
    WordsAreDistinct();
  }

  lemma NoPrefixCloses(a: string, b: string)
    requires IsStructText(a) && IsStructText(b)
    ensures a <= b ==> a == b
  {
    hide Closes;
    assert forall k | 0 <= k < |b| :: b[..k] != a;
    assert a <= b ==> a == b[..|a|];
  }

  /** The text of a struct type says where it ends. */
  lemma StructTextsEnd(a: string, x: string, b: string, y: string)
    requires IsStructText(a) && IsStructText(b) && a + x == b + y
    ensures a == b && x == y
  {
    NoPrefixCloses(a, b);
    NoPrefixCloses(b, a);
    hide *;
    var s := a + x;
    assert a <= s && b <= s;
    assert s[|a|..] == x && s[|b|..] == y;
  }

  lemma SameConstructor(t: Type, u: Type)
    requires Shape(t) == Shape(u)
    ensures (t.Array? <==> u.Array?) && (t.Chan? <==> u.Chan?) && (t.Map? <==> u.Map?) && (t.Named? <==> u.Named?)
    ensures (t.Pointer? <==> u.Pointer?) && (t.Slice? <==> u.Slice?)
            && (t.Struct? <==> u.Struct?) && (t.Tuple? <==> u.Tuple?)
    ensures (t.Basic? <==> u.Basic?) && (t.Interface? <==> u.Interface?)
            && (t.Signature? <==> u.Signature?) && (t.Iter? <==> u.Iter?)
    ensures t.Basic? ==> Erase(t) == Erase(u)
  {
  }

  lemma DecimalHasNo(n: nat, c: char)
    requires c == '$' || c == '>'
    ensures c !in Decimal(n)
  {
  }

  /** A name followed by more text is determined, up to what names leave out, and so is what follows it. */
  lemma {:induction false} NamesDetermine(t: Type, r: string, u: Type, q: string)
    requires Printable(t) && Printable(u) && Ends(r) && Ends(q) && NameThen(t, r) == NameThen(u, q)
    ensures Erase(t) == Erase(u) && r == q
    decreases t, 1
  {
    hide Word, WORDS, KindWord, NameThen, NamesThen, Shape, Decimal;
    SameShape(t, r, u, q);
    SameConstructor(t, u);
    match t {
      case Array(elem, len) => LengthDetermines(elem, len, r, u.elem, u.len, q);
      case Chan(_, elem) => ElementDetermines(elem, r, u.elem, q);
      case Pointer(elem) => ElementDetermines(elem, r, u.elem, q);
      case Slice(elem) => ElementDetermines(elem, r, u.elem, q);
      case Map(key, elem) =>
        var x, y := NameThen(elem, ['>'] + r), NameThen(u.elem, ['>'] + q);
        ConsIsInjective('<', NameThen(key, ['$'] + x), '<', NameThen(u.key, ['$'] + y));
        NamesDetermine(key, ['$'] + x, u.key, ['$'] + y);
        ConsIsInjective('$', x, '$', y);
        ElementDetermines(elem, r, u.elem, q);
      case Named(text, underlying) =>
        var x, y := NameThen(underlying, ['>'] + r), NameThen(u.underlying, ['>'] + q);
        ConsIsInjective('<', text + (['$'] + x), '<', u.text + (['$'] + y));
        SplitsOnce(text, x, u.text, y, '$');
        ElementDetermines(underlying, r, u.underlying, q);
      case Struct(text) =>
        ConsIsInjective('<', text + (['>'] + r), '<', u.text + (['>'] + q));
        StructTextsEnd(text, ['>'] + r, u.text, ['>'] + q);
        ConsIsInjective('>', r, '>', q);
      case Tuple(elems) =>
        ConsIsInjective('<', NamesThen(elems, ['>'] + r), '<', NamesThen(u.elems, ['>'] + q));
        TuplesDetermine(elems, r, u.elems, q);
      case _ =>
    }
  }

  lemma {:induction false} LengthDetermines(t: Type, m: nat, r: string, u: Type, n: nat, q: string)
    requires Printable(t) && Printable(u)
    requires ['<'] + NameThen(t, ['$'] + (Decimal(m) + (['>'] + r))) ==
               ['<'] + NameThen(u, ['$'] + (Decimal(n) + (['>'] + q)))
    ensures Erase(t) == Erase(u) && m == n && r == q
    decreases t, 2
  {
    hide NameThen, Decimal;
    var x, y := Decimal(m) + (['>'] + r), Decimal(n) + (['>'] + q);
    ConsIsInjective('<', NameThen(t, ['$'] + x), '<', NameThen(u, ['$'] + y));
    NamesDetermine(t, ['$'] + x, u, ['$'] + y);
    ConsIsInjective('$', x, '$', y);
    DecimalHasNo(m, '>');
    DecimalHasNo(n, '>');
    SplitsOnce(Decimal(m), r, Decimal(n), q, '>');
    DecimalIsInjective(m, n);
  }

  lemma {:induction false} ElementDetermines(t: Type, r: string, u: Type, q: string)
    requires Printable(t) && Printable(u) && ['<'] + NameThen(t, ['>'] + r) == ['<'] + NameThen(u, ['>'] + q)
    ensures Erase(t) == Erase(u) && r == q
    decreases t, 2
  {
    hide NameThen;
    ConsIsInjective('<', NameThen(t, ['>'] + r), '<', NameThen(u, ['>'] + q));
    NamesDetermine(t, ['>'] + r, u, ['>'] + q);
    ConsIsInjective('>', r, '>', q);
  }

  lemma {:induction false} TuplesDetermine(ts: seq<Type>, r: string, us: seq<Type>, q: string)
    requires (forall i | 0 <= i < |ts| :: Printable(ts[i])) && (forall i | 0 <= i < |us| :: Printable(us[i]))
    requires NamesThen(ts, ['>'] + r) == NamesThen(us, ['>'] + q)
    ensures EraseAll(ts) == EraseAll(us) && r == q
    decreases ts, 1
  {
    if ts != [] && us != [] {
      var x := if |ts| == 1 then ['>'] + r else ['$'] + NamesThen(ts[1..], ['>'] + r);
      var y := if |us| == 1 then ['>'] + q else ['$'] + NamesThen(us[1..], ['>'] + q);
      NamesDetermine(ts[0], x, us[0], y);
      assert x[0] == y[0];
      if |ts| == 1 {
        ConsIsInjective('>', r, '>', q);
      } else {
        ConsIsInjective('$', NamesThen(ts[1..], ['>'] + r), '$', NamesThen(us[1..], ['>'] + q));
        TuplesDetermine(ts[1..], r, us[1..], q);
      }
    } else {
      EmptyTuple(ts, ['>'] + r);
      EmptyTuple(us, ['>'] + q);
      ConsIsInjective('>', r, '>', q);
    }
  }

  /** A list of names begins with a letter, unless it is empty. */
  lemma EmptyTuple(ts: seq<Type>, r: string)
    requires !StartsPlain(r)
    ensures StartsPlain(NamesThen(ts, r)) <==> ts != []
    ensures ts == [] ==> NamesThen(ts, r) == r
  {
    if ts != [] {
      WordsArePlain(ts[0]);
      hide Word, AfterWord;
    }
  }

  // ----- the names as they are

  lemma Append3(a: string, b: string, c: string, r: string)
    ensures (a + (b + c)) + r == a + (b + (c + r))
  {
  }

  lemma Append2(a: string, b: string, r: string)
    ensures (a + b) + r == a + (b + r)
  {
  }

  /** `NameThen` is the name with the text behind it. */
  lemma {:induction false} NameThenIs(t: Type, r: string)
    ensures NameThen(t, r) == RawName(t) + r
    decreases t, 1
  {
    hide KindWord, Decimal;
    match t
    case Array(elem, len) =>
      var x := Decimal(len) + ['>'];
      NameThenIs(elem, ['$'] + (Decimal(len) + (['>'] + r)));
      Append3("Array", ['<'], RawName(elem) + (['$'] + x), r);
      Append3(RawName(elem), ['$'], x, r);
      Append2(Decimal(len), ['>'], r);
    case Map(key, elem) =>
      NameThenIs(key, ['$'] + NameThen(elem, ['>'] + r));
      NameThenIs(elem, ['>'] + r);
      Append3("Map", ['<'], RawName(key) + (['$'] + (RawName(elem) + ['>'])), r);
      Append3(RawName(key), ['$'], RawName(elem) + ['>'], r);
      Append2(RawName(elem), ['>'], r);
    case Named(text, underlying) =>
      NameThenIs(underlying, ['>'] + r);
      Append3("Named", ['<'], text + (['$'] + (RawName(underlying) + ['>'])), r);
      Append3(text, ['$'], RawName(underlying) + ['>'], r);
      Append2(RawName(underlying), ['>'], r);
    case Chan(_, elem) =>
      ElementThenIs("Channel", elem, r);
    case Pointer(elem) =>
      ElementThenIs("Pointer", elem, r);
    case Slice(elem) =>
      ElementThenIs("Slice", elem, r);
    case Struct(text) =>
      Append3("Struct", ['<'], text + ['>'], r);
      Append2(text, ['>'], r);
    case Tuple(elems) =>
      NamesThenIs(elems, ['>'] + r);
      Append3("Tuple", ['<'], RawNames(elems) + ['>'], r);
      Append2(RawNames(elems), ['>'], r);
    case _ =>
  }

  lemma {:induction false} ElementThenIs(w: string, t: Type, r: string)
    ensures w + (['<'] + NameThen(t, ['>'] + r)) == (w + (['<'] + (RawName(t) + ['>']))) + r
    decreases t, 2
  {
    hide NameThen, RawName;
    NameThenIs(t, ['>'] + r);
    Append3(w, ['<'], RawName(t) + ['>'], r);
    Append2(RawName(t), ['>'], r);
  }

  lemma {:induction false} NamesThenIs(ts: seq<Type>, r: string)
    ensures NamesThen(ts, r) == RawNames(ts) + r
    decreases ts, 1
  {
    hide NameThen, RawName;
    if ts == [] {
      assert "" + r == r;
    } else if |ts| == 1 {
      NameThenIs(ts[0], r);
      assert RawName(ts[0]) + "" == RawName(ts[0]);
    } else {
      NamesThenIs(ts[1..], r);
      NameThenIs(ts[0], ['$'] + NamesThen(ts[1..], r));
      Append3(RawName(ts[0]), ['$'], RawNames(ts[1..]), r);
    }
  }

  /** Erasing what names leave out does not change the name. */
  lemma {:induction false} ErasedName(t: Type)
    ensures RawName(Erase(t)) == RawName(t)
    decreases t, 1
  {
    hide Decimal;
    match t
    case Array(elem, _) => ErasedName(elem);
    case Chan(_, elem) => ErasedName(elem);
    case Map(key, elem) => ErasedName(key); ErasedName(elem);
    case Named(_, underlying) => ErasedName(underlying);
    case Pointer(elem) => ErasedName(elem);
    case Slice(elem) => ErasedName(elem);
    case Tuple(elems) => ErasedNames(elems);
    case _ =>
  }

  lemma {:induction false} ErasedNames(ts: seq<Type>)
    ensures RawNames(EraseAll(ts)) == RawNames(ts)
    decreases ts, 0
  {
    hide RawName;
    if ts != [] {
      ErasedName(ts[0]);
      ErasedNames(ts[1..]);
      assert EraseAll(ts)[1..] == EraseAll(ts[1..]);
    }
  }

  lemma WrappedIsAscii(w: string, x: string)
    requires IsAscii(w) && IsAscii(x)
    ensures IsAscii(w + (['<'] + (x + ['>'])))
  {
  }

  lemma PairIsAscii(w: string, x: string, y: string)
    requires IsAscii(w) && IsAscii(x) && IsAscii(y)
    ensures IsAscii(w + (['<'] + (x + (['$'] + (y + ['>'])))))
  {
    var s := w + (['<'] + (x + (['$'] + (y + ['>']))));
    forall c | c in s ensures c < 128 as char {
      assert c in w || c == '<' || c in x || c == '$' || c in y || c == '>';
    }
  }

  lemma WordIsAscii(t: Type)
    ensures IsAscii(Word(t))
  {
    WordsArePlain(t);
    hide Word;
  }

  lemma {:induction false} NameIsAscii(t: Type)
    requires Printable(t)
    ensures IsAscii(RawName(t))
    decreases t, 1
  {
    hide Decimal, KindWord, IsAscii;
    WordIsAscii(t);
    match t
    case Array(elem, len) => NameIsAscii(elem); DecimalIsAscii(len); PairIsAscii("Array", RawName(elem), Decimal(len));
    case Chan(_, elem) => NameIsAscii(elem); WrappedIsAscii("Channel", RawName(elem));
    case Map(key, elem) => NameIsAscii(key); NameIsAscii(elem); PairIsAscii("Map", RawName(key), RawName(elem));
    case Named(text, underlying) => NameIsAscii(underlying); PairIsAscii("Named", text, RawName(underlying));
    case Pointer(elem) => NameIsAscii(elem); WrappedIsAscii("Pointer", RawName(elem));
    case Slice(elem) => NameIsAscii(elem); WrappedIsAscii("Slice", RawName(elem));
    case Struct(text) => WrappedIsAscii("Struct", text);
    case Tuple(elems) => NamesAreAscii(elems); WrappedIsAscii("Tuple", RawNames(elems));
    case _ =>
  }

  lemma DecimalIsAscii(n: nat)
    ensures IsAscii(Decimal(n))
  {
  }

  lemma {:induction false} NamesAreAscii(ts: seq<Type>)
    requires forall i | 0 <= i < |ts| :: Printable(ts[i])
    ensures IsAscii(RawNames(ts))
    decreases ts, 0
  {
    hide RawName, Printable;
    if ts != [] {
      NameIsAscii(ts[0]);
      NamesAreAscii(ts[1..]);
    }
  }

  /** `createTypeName`: the C name of a type. */
  function TypeName(t: Type): string
    requires Printable(t)
  {
    NameIsAscii(t);
    Encoded(RawName(t))
  }

  /** Two types have the same C name exactly if they differ at most in what names leave out. */
  lemma TypeNamesAreUnique(t: Type, u: Type)
    requires Printable(t) && Printable(u)
    ensures TypeName(t) == TypeName(u) <==> Erase(t) == Erase(u)
  {
    NameIsAscii(t);
    NameIsAscii(u);
    EncodingIsInjective(RawName(t), RawName(u));
    ErasedName(t);
    ErasedName(u);
    NameThenIs(t, "");
    NameThenIs(u, "");
    assert RawName(t) + "" == RawName(t) && RawName(u) + "" == RawName(u);
    assert TypeName(t) == Encoded(RawName(t)) && TypeName(u) == Encoded(RawName(u));
    hide RawName, NameThen, Printable, Erase, Encoded;
    if RawName(t) == RawName(u) {
      NamesDetermine(t, "", u, "");
    }
  }

  // ----- signatures

  /** What the name and the C struct of a signature depend on. */
  datatype Sig = Sig(receiver: Option<Type>, params: seq<Type>, results: seq<Type>)

  /** With its receiver as first parameter, with an untyped pointer in its place, or without it. */
  datatype Variant = Concrete | Abstract | Bound

  predicate PrintableSig(s: Sig) {
    && (s.receiver.Some? ==> Printable(s.receiver.value))
    && (forall i | 0 <= i < |s.params| :: Printable(s.params[i]))
    && (forall i | 0 <= i < |s.results| :: Printable(s.results[i]))
  }

  /** The C struct: the type its result pointer points to, if any, and the types of its parameters. */
  datatype Fields = Fields(result: Option<string>, params: seq<string>)

  function TypeNames(ts: seq<Type>): (r: seq<string>)
    requires forall i | 0 <= i < |ts| :: Printable(ts[i])
    ensures |r| == |ts| && forall i | 0 <= i < |ts| :: r[i] == TypeName(ts[i])
  {
    if ts == [] then [] else [TypeName(ts[0])] + TypeNames(ts[1..])
  }

  function ResultName(s: Sig): string
    requires PrintableSig(s)
  {
    if s.results == [] then "" else if |s.results| == 1 then TypeName(s.results[0]) else TypeName(Tuple(s.results))
  }

  /** The fields that are emitted for a variant of a signature. */
  function FieldsOf(s: Sig, v: Variant): Fields
    requires PrintableSig(s)
  {
    var receiver :=
      if s.receiver.None? || v.Bound? then []
      else if v.Abstract? then ["void*"] else [TypeName(s.receiver.value)];
    Fields(if s.results == [] then None else Some(ResultName(s)), receiver + TypeNames(s.params))
  }

  /** The struct has a result pointer if there are results, to the one result or to a tuple of them; the
      receiver, unless it is bound, is the first parameter, and the others follow in order. */
  lemma FieldsInOrder(s: Sig, v: Variant)
    requires PrintableSig(s)
    ensures var fields, first := FieldsOf(s, v), if s.receiver.Some? && v != Bound then 1 else 0;
            && (fields.result.None? <==> |s.results| == 0)
            && (|s.results| == 1 ==> fields.result == Some(TypeName(s.results[0])))
            && (|s.results| > 1 ==> fields.result == Some(TypeName(Tuple(s.results))))
            && |fields.params| == first + |s.params|
            && (first == 1 && v == Concrete ==> fields.params[0] == TypeName(s.receiver.value))
            && (first == 1 && v == Abstract ==> fields.params[0] == "void*")
            && forall i | 0 <= i < |s.params| :: fields.params[first + i] == TypeName(s.params[i])
  {
  }

  /** Each text followed by a separator. */
  function Separated(xs: seq<string>): string {
    if xs == [] then "" else xs[0] + (['$'] + Separated(xs[1..]))
  }

  /** `createSignatureName`, before it is encoded. */
  function RawSignatureName(s: Sig, v: Variant): string
    requires PrintableSig(s)
  {
    var named := if s.receiver.Some? && v.Concrete? then [TypeName(s.receiver.value)] else [];
    (if s.receiver.Some? && v.Abstract? then "Interface" else "") + ("Signature" + (['$'] + ("Params" + (['$'] +
      (Separated(named + TypeNames(s.params)) + ("Results" + (['$'] + ResultName(s))))))))
  }

  lemma {:induction false} PlainIsItself(s: string)
    requires IsAscii(s) && forall i | 0 <= i < |s| :: IsPlain(s[i])
    ensures Encoded(s) == s
    decreases |s|
  {
    if s != "" {
      PlainIsItself(s[1..]);
      assert s == [s[0]] + s[1..];
    }
  }

  lemma WordOfName(t: Type, w: string)
    requires IsWord(w)
    ensures NameThen(t, "") == w ==> Word(t) == w
  {
    WordsArePlain(t);
    AfterWordStops(t, "");
    assert NameThen(t, "") == Word(t) + AfterWord(t, "");
    hide Word, AfterWord, NameThen, IsWord;
    if NameThen(t, "") == w {
      assert w + "" == w;
      WordEnds(Word(t), AfterWord(t, ""), w, "");
    }
  }

  lemma ResultsIsNoWord()
    ensures forall i | 0 <= i < |WORDS| :: WORDS[i] != "Results"
    ensures IsWord("Results") && IsAscii("Results")
  {
  }

  lemma RawNameIsNoWord(t: Type)
    ensures RawName(t) != "Results" && RawName(t) != ""
  {
    hide *;
    ResultsIsNoWord();
    NameThenIs(t, "");
    assert RawName(t) + "" == RawName(t);
    WordOfShape(t);
    WordOfName(t, "Results");
    NamesStartPlain(t);
  }

  lemma EncodedWords()
    ensures Encoded("") == "" && IsAscii("") && !IsPlain('$') && !IsPlain('*')
    ensures IsAscii("Results") && Encoded("Results") == "Results"
  {
    ResultsIsNoWord();
    assert forall i | 0 <= i < |"Results"| :: IsPlain("Results"[i]);
    PlainIsItself("Results");
  }

  /** The name of a type is neither empty nor the word that ends a parameter list, and has no separator. */
  lemma TypeNameIsPlain(t: Type)
    requires Printable(t)
    ensures TypeName(t) != "" && TypeName(t) != "Results" && '$' !in TypeName(t) && '*' !in TypeName(t)
  {
    NameIsAscii(t);
    assert TypeName(t) == Encoded(RawName(t));
    hide *;
    EncodedAlphabet(RawName(t));
    EncodedWords();
    EncodingIsInjective(RawName(t), "Results");
    EncodingIsInjective(RawName(t), "");
    RawNameIsNoWord(t);
  }

  lemma NamesStartPlain(t: Type)
    ensures NameThen(t, "") != ""
  {
    WordsArePlain(t);
    hide Word, AfterWord;
  }

  predicate NoSeparator(xs: seq<string>) {
    forall i | 0 <= i < |xs| :: '$' !in xs[i] && xs[i] != "Results"
  }

  lemma {:induction false} ParametersDetermine(xs: seq<string>, r: string, ys: seq<string>, q: string)
    requires NoSeparator(xs) && NoSeparator(ys)
    requires Separated(xs) + ("Results" + (['$'] + r)) == Separated(ys) + ("Results" + (['$'] + q))
    ensures xs == ys && r == q
    decreases |xs|
  {
    var a, b := "Results" + (['$'] + r), "Results" + (['$'] + q);
    FirstOf(xs, a, r);
    FirstOf(ys, b, q);
    var x, y := if xs == [] then "Results" else xs[0], if ys == [] then "Results" else ys[0];
    var u, v := if xs == [] then r else Separated(xs[1..]) + a, if ys == [] then q else Separated(ys[1..]) + b;
    SplitsOnce(x, u, y, v, '$');
    if xs != [] && ys != [] {
      ParametersDetermine(xs[1..], r, ys[1..], q);
      assert xs == [xs[0]] + xs[1..] && ys == [ys[0]] + ys[1..];
    }
  }

  lemma FirstOf(xs: seq<string>, a: string, r: string)
    requires a == "Results" + (['$'] + r)
    ensures Separated(xs) + a == if xs == [] then a else xs[0] + (['$'] + (Separated(xs[1..]) + a))
  {
    if xs != [] {
      Append3(xs[0], ['$'], Separated(xs[1..]), a);
    }
  }

  function Listed(s: Sig, v: Variant): seq<string>
    requires PrintableSig(s)
  {
    (if s.receiver.Some? && v.Concrete? then [TypeName(s.receiver.value)] else []) + TypeNames(s.params)
  }

  function Tail(s: Sig, v: Variant): string
    requires PrintableSig(s)
  {
    "Signature" + (['$'] + ("Params" + (['$'] + (Separated(Listed(s, v)) + ("Results" + (['$'] + ResultName(s)))))))
  }

  lemma ListedIsPlain(s: Sig, v: Variant)
    requires PrintableSig(s)
    ensures NoSeparator(Listed(s, v)) && forall i | 0 <= i < |Listed(s, v)| :: '*' !in Listed(s, v)[i]
    ensures s.results != [] <==> ResultName(s) != ""
  {
    forall i | 0 <= i < |s.params| ensures var n := TypeName(s.params[i]); n != "Results" && '$' !in n && '*' !in n {
      TypeNameIsPlain(s.params[i]);
    }
    if s.receiver.Some? { TypeNameIsPlain(s.receiver.value); }
    if |s.results| == 1 {
      TypeNameIsPlain(s.results[0]);
    } else if |s.results| > 1 {
      TypeNameIsPlain(Tuple(s.results));
    }
    hide TypeName, Printable;
  }

  /** Equal names: the same receiver form, the same listed types, the same result. */
  lemma RawSignaturesDetermine(s: Sig, v: Variant, t: Sig, w: Variant)
    requires PrintableSig(s) && PrintableSig(t)
    ensures RawSignatureName(s, v) == RawSignatureName(t, w) <==>
            (s.receiver.Some? && v.Abstract? <==> t.receiver.Some? && w.Abstract?)
              && Listed(s, v) == Listed(t, w) && ResultName(s) == ResultName(t)
  {
    ListedIsPlain(s, v);
    ListedIsPlain(t, w);
    var f, g := s.receiver.Some? && v.Abstract?, t.receiver.Some? && w.Abstract?;
    var a, b := Tail(s, v), Tail(t, w);
    assert RawSignatureName(s, v) == (if f then "Interface" else "") + a;
    assert RawSignatureName(t, w) == (if g then "Interface" else "") + b;
    var x := Separated(Listed(s, v)) + ("Results" + (['$'] + ResultName(s)));
    var y := Separated(Listed(t, w)) + ("Results" + (['$'] + ResultName(t)));
    assert a == "Signature" + (['$'] + ("Params" + (['$'] + x)))
           && b == "Signature" + (['$'] + ("Params" + (['$'] + y)));
    hide *;
    Prefixes(f, a, g, b, x, y);
    if x == y {
      ParametersDetermine(Listed(s, v), ResultName(s), Listed(t, w), ResultName(t));
    }
  }

  lemma Prefixes(f: bool, a: string, g: bool, b: string, x: string, y: string)
    requires a == "Signature" + (['$'] + ("Params" + (['$'] + x)))
             && b == "Signature" + (['$'] + ("Params" + (['$'] + y)))
    ensures (if f then "Interface" else "") + a == (if g then "Interface" else "") + b <==> f == g && x == y
  {
    var p, q := (if f then "Interface" else "") + a, (if g then "Interface" else "") + b;
    assert p[0] == (if f then 'I' else 'S') && q[0] == (if g then 'I' else 'S');
    assert a[17..] == x && b[17..] == y;
    assert p[(if f then 9 else 0)..] == a && q[(if g then 9 else 0)..] == b;
  }

  lemma FieldsForm(s: Sig, v: Variant)
    requires PrintableSig(s)
    ensures FieldsOf(s, v) == Fields(if s.results == [] then None else Some(ResultName(s)),
                                     (if s.receiver.Some? && v.Abstract? then ["void*"] else []) + Listed(s, v))
  {
    var names := TypeNames(s.params);
    assert [] + names == names;
    hide TypeNames, TypeName, ResultName;
  }

  /** The C struct depends on just that. */
  lemma FieldsDetermine(s: Sig, v: Variant, t: Sig, w: Variant)
    requires PrintableSig(s) && PrintableSig(t)
    ensures FieldsOf(s, v) == FieldsOf(t, w) <==>
            (s.receiver.Some? && v.Abstract? <==> t.receiver.Some? && w.Abstract?)
              && Listed(s, v) == Listed(t, w) && ResultName(s) == ResultName(t)
  {
    hide *;
    ListedIsPlain(s, v);
    ListedIsPlain(t, w);
    FieldsForm(s, v);
    FieldsForm(t, w);
    PointerIsNoName(s.receiver.Some? && v.Abstract?, Listed(s, v), t.receiver.Some? && w.Abstract?, Listed(t, w));
  }

  lemma PointerIsNoName(f: bool, xs: seq<string>, g: bool, ys: seq<string>)
    requires forall i | 0 <= i < |xs| :: '*' !in xs[i]
    requires forall i | 0 <= i < |ys| :: '*' !in ys[i]
    ensures (if f then ["void*"] else []) + xs == (if g then ["void*"] else []) + ys <==> f == g && xs == ys
  {
    var p, q := (if f then ["void*"] else []) + xs, (if g then ["void*"] else []) + ys;
    assert "void*"[4] == '*';
    if f && g {
      assert p[1..] == xs && q[1..] == ys;
    } else if f {
      assert p[0] == "void*" && q == ys;
    } else if g {
      assert q[0] == "void*" && p == xs;
    } else {
      assert p == xs && q == ys;
    }
  }

  lemma ListedIsAscii(s: Sig, v: Variant)
    requires PrintableSig(s)
    ensures forall i | 0 <= i < |Listed(s, v)| :: IsAscii(Listed(s, v)[i])
    ensures IsAscii(ResultName(s))
  {
    forall i | 0 <= i < |s.params| ensures IsAscii(TypeName(s.params[i])) { TypeNameIsAscii(s.params[i]); }
    if s.receiver.Some? { TypeNameIsAscii(s.receiver.value); }
    if |s.results| == 1 {
      TypeNameIsAscii(s.results[0]);
    } else if |s.results| > 1 {
      TypeNameIsAscii(Tuple(s.results));
    }
    hide TypeName, Printable, IsAscii;
  }

  lemma AsciiAppend(a: string, b: string)
    requires IsAscii(a) && IsAscii(b)
    ensures IsAscii(a + b)
  {
  }

  lemma SignatureIsAscii(s: Sig, v: Variant)
    requires PrintableSig(s)
    ensures IsAscii(RawSignatureName(s, v))
  {
    hide *;
    var prefix := if s.receiver.Some? && v.Abstract? then "Interface" else "";
    var results := "Results" + (['$'] + ResultName(s));
    var params := Separated(Listed(s, v)) + results;
    RawSignatureIs(s, v, prefix, params);
    SignatureWordsAreAscii();
    ListedIsAscii(s, v);
    SeparatedIsAscii(Listed(s, v));
    JoinedIsAscii("Results", ResultName(s));
    AsciiAppend(Separated(Listed(s, v)), results);
    JoinedIsAscii("Params", params);
    JoinedIsAscii("Signature", "Params" + (['$'] + params));
    AsciiAppend(prefix, "Signature" + (['$'] + ("Params" + (['$'] + params))));
  }

  lemma RawSignatureIs(s: Sig, v: Variant, prefix: string, params: string)
    requires PrintableSig(s) && prefix == if s.receiver.Some? && v.Abstract? then "Interface" else ""
    requires params == Separated(Listed(s, v)) + ("Results" + (['$'] + ResultName(s)))
    ensures RawSignatureName(s, v) == prefix + ("Signature" + (['$'] + ("Params" + (['$'] + params))))
  {
    hide Separated, ResultName;
  }

  lemma SignatureWordsAreAscii()
    ensures IsAscii("Interface") && IsAscii("") && IsAscii("Signature") && IsAscii("Params") && IsAscii("Results")
  {
  }

  lemma JoinedIsAscii(a: string, b: string)
    requires IsAscii(a) && IsAscii(b)
    ensures IsAscii(a + (['$'] + b))
  {
    AsciiAppend(['$'], b);
    AsciiAppend(a, ['$'] + b);
  }

  lemma AlphabetIsAscii(n: string)
    requires forall c | c in n :: IsPlain(c) || c == '_'
    ensures IsAscii(n)
  {
    forall i | 0 <= i < |n| ensures n[i] < 128 as char { assert n[i] in n; }
  }

  lemma TypeNameIsAscii(t: Type)
    requires Printable(t)
    ensures IsAscii(TypeName(t))
  {
    NameIsAscii(t);
    assert TypeName(t) == Encoded(RawName(t));
    hide *;
    EncodedAlphabet(RawName(t));
    AlphabetIsAscii(Encoded(RawName(t)));
  }

  lemma {:induction false} SeparatedIsAscii(xs: seq<string>)
    requires forall i | 0 <= i < |xs| :: IsAscii(xs[i])
    ensures IsAscii(Separated(xs))
    decreases |xs|
  {
    if xs != [] {
      SeparatedIsAscii(xs[1..]);
    }
  }

  /** `createSignatureName`. */
  function SignatureName(s: Sig, v: Variant): string
    requires PrintableSig(s)
  {
    SignatureIsAscii(s, v);
    Encoded(RawSignatureName(s, v))
  }

  /** Two signatures have the same name exactly when they have the same C struct, so one definition for
      each name is right for all. */
  lemma SignatureNamesAreUnique(s: Sig, v: Variant, t: Sig, w: Variant)
    requires PrintableSig(s) && PrintableSig(t)
    ensures SignatureName(s, v) == SignatureName(t, w) <==> FieldsOf(s, v) == FieldsOf(t, w)
  {
    SignatureIsAscii(s, v);
    SignatureIsAscii(t, w);
    assert SignatureName(s, v) == Encoded(RawSignatureName(s, v))
           && SignatureName(t, w) == Encoded(RawSignatureName(t, w));
    hide *;
    EncodingIsInjective(RawSignatureName(s, v), RawSignatureName(t, w));
    RawSignaturesDetermine(s, v, t, w);
    FieldsDetermine(s, v, t, w);
  }

  datatype Request = Request(sig: Sig, variant: Variant)

  datatype Definition = Definition(name: string, fields: Fields)

  function DefinitionOf(r: Request): Definition
    requires PrintableSig(r.sig)
  {
    Definition(SignatureName(r.sig, r.variant), FieldsOf(r.sig, r.variant))
  }

  ghost predicate DistinctNames(out: seq<Definition>) {
    forall j, k | 0 <= j < k < |out| :: out[j].name != out[k].name
  }

  /** The definitions so far are those of some of the requests, and the set holds their names. */
  ghost predicate Collected(out: seq<Definition>, names: set<string>, from: seq<Request>) {
    && |from| == |out|
    && (forall j | 0 <= j < |out| :: PrintableSig(from[j].sig) && out[j] == DefinitionOf(from[j]))
    && (forall j | 0 <= j < |out| :: out[j].name in names)
    && (forall n | n in names :: exists j :: 0 <= j < |out| && out[j].name == n)
  }

  lemma NamesGiveDefinitions(out: seq<Definition>, names: set<string>, from: seq<Request>, r: Request)
    requires Collected(out, names, from) && PrintableSig(r.sig) && DefinitionOf(r).name in names
    ensures DefinitionOf(r) in out
  {
    var j :| 0 <= j < |out| && out[j].name == DefinitionOf(r).name;
    SignatureNamesAreUnique(from[j].sig, from[j].variant, r.sig, r.variant);
    hide SignatureName, FieldsOf, PrintableSig;
    assert out[j] == DefinitionOf(from[j]) == DefinitionOf(r);
  }

  lemma OneMoreDefinition(out: seq<Definition>, names: set<string>, from: seq<Request>, r: Request)
    requires Collected(out, names, from) && DistinctNames(out) && PrintableSig(r.sig) && DefinitionOf(r).name !in names
    ensures Collected(out + [DefinitionOf(r)], names + {DefinitionOf(r).name}, from + [r])
            && DistinctNames(out + [DefinitionOf(r)])
  {
    hide DefinitionOf, PrintableSig;
    var d := DefinitionOf(r);
    var more := out + [d];
    forall n | n in names + {d.name} ensures exists j :: 0 <= j < |more| && more[j].name == n {
      if n in names {
        var j :| 0 <= j < |out| && out[j].name == n;
        assert more[j].name == n;
      } else {
        assert more[|out|].name == n;
      }
    }
  }

  /** `emitSignature`: a definition is emitted for the first signature of each name. Every signature asked
      for finds a definition under its name with its own fields, and no name is defined twice. */
  method EmitSignatures(requests: seq<Request>) returns (out: seq<Definition>)
    requires forall i | 0 <= i < |requests| :: PrintableSig(requests[i].sig)
    ensures forall i | 0 <= i < |requests| :: DefinitionOf(requests[i]) in out
    ensures DistinctNames(out)
  {
    hide PrintableSig, SignatureName, FieldsOf, Collected, DistinctNames;
    out := [];
    var signatureNameSet: set<string> := {};
    ghost var from: seq<Request> := [];
    NothingCollected();
    for i := 0 to |requests|
      invariant Collected(out, signatureNameSet, from) && DistinctNames(out)
      invariant forall j | 0 <= j < i :: DefinitionOf(requests[j]) in out
    {
      var r := requests[i];
      var name := SignatureName(r.sig, r.variant);
      if name in signatureNameSet {
        NamesGiveDefinitions(out, signatureNameSet, from, r);
      } else {
        OneMoreDefinition(out, signatureNameSet, from, r);
        signatureNameSet := signatureNameSet + {name};
        out := out + [Definition(name, FieldsOf(r.sig, r.variant))];
        from := from + [r];
        assert out[|out| - 1] == DefinitionOf(r);
      }
    }
  }

  lemma NothingCollected()
    ensures Collected([], {}, []) && DistinctNames([])
  {
  }
}
