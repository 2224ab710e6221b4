/** The record types shared by the two symbol tables of the interpreter
    (symtab.h), and the operations both of them perform on a singly linked
    chain of symbol nodes: walking it for a name, and updating or prepending
    an entry. A chain is modelled as a sequence whose element 0 is the head
    node; the index of an element is the node's position in the list. */
module Symbols {

  datatype Option<T> = None | Some(value: T)

  /** C `int`. */
  newtype Int32 = x: int | -0x8000_0000 <= x < 0x8000_0000

  /** C `float`, kept as its 32-bit pattern: the tables only store and return it. */
  datatype Float32 = Float32(bits: bv32)

  /** A function definition's AST, owned by the parser and held by reference only. */
  datatype AstRef = AstRef(node: nat)

  /** The type tag of a symbol (ValueType). */
  datatype ValueType = TypeFloat | TypeInt | TypeString | TypeBool | TypeFunction

  /** The payload of a symbol (the SymbolData union). */
  datatype SymbolData =
    | FloatVal(f: Float32)
    | IntVal(i: Int32)
    | BoolVal(flag: Int32)
    | StringVal(text: string)
    | FuncAst(ast: AstRef)

  /** One SymbolNode: its name, type tag and payload; `next` is the chain order. */
  datatype Symbol = Symbol(name: string, tag: ValueType, data: SymbolData)

  /** A linked list of SymbolNodes, head first. */
  type Chain = seq<Symbol>

  /** The tag that belongs with a payload. */
  function TagFor(d: SymbolData): ValueType {
    match d
    case FloatVal(_) => TypeFloat
    case IntVal(_) => TypeInt
    case BoolVal(_) => TypeBool
    case StringVal(_) => TypeString
    case FuncAst(_) => TypeFunction
  }

  /** The tag of a symbol says which member of the union is live. */
  predicate TagMatches(s: Symbol) {
    s.tag == TagFor(s.data)
  }

  /** No two nodes of a chain carry the same name. */
  predicate UniqueNames(c: Chain) {
    forall i, j :: 0 <= i < j < |c| ==> c[i].name != c[j].name
  }

  /** Position of the first node whose name matches (strcmp == 0), if any. */
  function FindIndex(c: Chain, name: string): (r: Option<nat>)
    ensures r.Some? ==> r.value < |c| && c[r.value].name == name
    ensures r.Some? ==> forall j :: 0 <= j < r.value ==> c[j].name != name
    ensures r.None? ==> forall j :: 0 <= j < |c| ==> c[j].name != name
  {
    if c == [] then None
    else if c[0].name == name then Some(0)
    else
      match FindIndex(c[1..], name)
      case None => None
      case Some(k) => Some(k + 1)
  }

  /** The first node whose name matches, if any. */
  function Find(c: Chain, name: string): (r: Option<Symbol>)
    ensures r.Some? ==> r.value.name == name && r.value in c
    ensures r.None? <==> forall j :: 0 <= j < |c| ==> c[j].name != name
  {
    match FindIndex(c, name)
    case None => None
    case Some(i) => Some(c[i])
  }

  /** The chain after writing `s`: the first node named `s.name` is overwritten
      in place with the new tag and payload; when there is none, a new node is
      linked in at the head. */
  function Store(c: Chain, s: Symbol): Chain {
    match FindIndex(c, s.name)
    case Some(i) => c[i := s]
    case None => [s] + c
  }

  /** Walks the chain node by node until the name matches (the `while (sym)`
      loops of both tables). */
  method Locate(c: Chain, name: string) returns (r: Option<nat>)
    ensures r == FindIndex(c, name)
  {
    var i := 0;
    while i < |c|
      invariant 0 <= i <= |c|
      invariant forall j :: 0 <= j < i ==> c[j].name != name
    {
      if c[i].name == name {
        return Some(i);
      }
      i := i + 1;
    }
    return None;
  }

  /** Two chains whose names agree position by position are searched alike. */
  lemma {:induction false} FindIndexSameNames(c: Chain, d: Chain, name: string)
    requires |c| == |d|
    requires forall j :: 0 <= j < |c| ==> c[j].name == d[j].name
    ensures FindIndex(c, name) == FindIndex(d, name)
  {
    if c != [] && c[0].name != name {
      FindIndexSameNames(c[1..], d[1..], name);
    }
  }

  /** After a write, the written name finds the new entry and every other name
      finds what it found before. */
  lemma FindAfterStore(c: Chain, s: Symbol, name: string)
    ensures Find(Store(c, s), name) == if name == s.name then Some(s) else Find(c, name)
  {
    var c' := Store(c, s);
    match FindIndex(c, s.name)
    case Some(i) =>
      FindIndexSameNames(c', c, name);
    case None =>
      assert c'[1..] == c;
  }

  /** An update keeps the length and the entry's position; an insertion adds
      exactly one node, at the head. */
  lemma StoreShape(c: Chain, s: Symbol)
    ensures Find(c, s.name).Some? ==> |Store(c, s)| == |c| && FindIndex(Store(c, s), s.name) == FindIndex(c, s.name)
    ensures Find(c, s.name).None? ==> |Store(c, s)| == |c| + 1 && FindIndex(Store(c, s), s.name) == Some(0)
  {
    if FindIndex(c, s.name).Some? {
      FindIndexSameNames(Store(c, s), c, s.name);
    }
  }

  /** A write keeps names unique, and the entries afterwards are exactly the new
      one and the old ones under other names. */
  lemma StoreContents(c: Chain, s: Symbol)
    requires UniqueNames(c)
    ensures UniqueNames(Store(c, s))
    ensures forall e :: e in Store(c, s) <==> e == s || (e in c && e.name != s.name)
  {
    var c' := Store(c, s);
    match FindIndex(c, s.name)
    case Some(i) =>
      assert c' == c[i := s];
      assert forall j :: 0 <= j < |c| ==> c'[j].name == c[j].name;
      assert c'[i] == s;
      forall e | e in c && e.name != s.name ensures e in c' {
        var j :| 0 <= j < |c| && c[j] == e;
        assert c'[j] == e;
      }
      forall e | e in c' && e != s ensures e in c && e.name != s.name {
        var j :| 0 <= j < |c'| && c'[j] == e;
        assert j != i && c[j] == e;
      }
    case None =>
      assert c' == [s] + c;
      assert forall e :: e in c' <==> e == s || e in c;
  }

  /** The text strdup copies out of a C string buffer: everything before the
      first NUL (the whole buffer when it holds none). */
  function CString(buf: seq<char>): (s: string)
    ensures |s| <= |buf| && s == buf[..|s|]
    ensures '\0' !in s
    ensures |s| < |buf| ==> buf[|s|] == '\0'
  {
    if buf == [] || buf[0] == '\0' then []
    else [buf[0]] + CString(buf[1..])
  }
}
