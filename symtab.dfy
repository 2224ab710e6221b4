/** The older flat symbol table (symtab.c): one global chain of symbol nodes,
    `symbol_table`, searched as a whole by every read and every write. */
module SymTab {
  import opened Symbols

  /** The node put_symbol_int writes: an existing entry is retagged INT, but a
      new entry is created with the FLOAT tag while its payload is the int. */
  function IntEntry(entries: Chain, name: string, value: Int32): Symbol {
    Symbol(name, if Find(entries, name).Some? then TypeInt else TypeFloat, IntVal(value))
  }

  class SymbolTable {
    /** symbol_table, head first. */
    var entries: Chain

    ghost predicate Valid()
      reads this
    {
      UniqueNames(entries)
    }

    /** The static initialisation `symbol_table = NULL`. */
    constructor ()
      ensures Valid() && entries == []
    {
      entries := [];
    }

    /** init_symbol_table: the table is empty again. */
    method InitSymbolTable()
      modifies this
      ensures Valid() && entries == []
    {
      entries := [];
    }

    /** lookup_symbol: the first node whose name matches. */
    method Lookup(name: string) returns (r: Option<Symbol>)
      ensures r == Find(entries, name)
    {
      var i := Locate(entries, name);
      r := if i.Some? then Some(entries[i.value]) else None;
    }

    /** Updates the matching node in place, or prepends a new one. */
    method PutFloat(name: string, value: Float32) returns (sym: Symbol)
      requires Valid()
      modifies this
      ensures Valid()
      ensures sym == Symbol(name, TypeFloat, FloatVal(value))
      ensures entries == Store(old(entries), sym)
    {
      sym := Symbol(name, TypeFloat, FloatVal(value));
      var i := Locate(entries, name);
      StoreContents(entries, sym);
      if i.Some? {
        entries := entries[i.value := sym];
      } else {
        entries := [sym] + entries;
      }
    }

    /** As PutFloat, but with the tagging of IntEntry. */
    method PutInt(name: string, value: Int32) returns (sym: Symbol)
      requires Valid()
      modifies this
      ensures Valid()
      ensures sym == IntEntry(old(entries), name, value)
      ensures entries == Store(old(entries), sym)
    {
      var i := Locate(entries, name);
      if i.Some? {
        sym := Symbol(name, TypeInt, IntVal(value));
        StoreContents(entries, sym);
        entries := entries[i.value := sym];
      } else {
        sym := Symbol(name, TypeFloat, IntVal(value));
        StoreContents(entries, sym);
        entries := [sym] + entries;
      }
    }

    /** The stored text is a copy of the caller's C string (strdup). */
    method PutString(name: string, value: array<char>) returns (sym: Symbol)
      requires Valid()
      modifies this
      ensures Valid()
      ensures sym == Symbol(name, TypeString, StringVal(CString(value[..])))
      ensures entries == Store(old(entries), sym)
    {
      sym := Symbol(name, TypeString, StringVal(CString(value[..])));
      var i := Locate(entries, name);
      StoreContents(entries, sym);
      if i.Some? {
        entries := entries[i.value := sym];
      } else {
        entries := [sym] + entries;
      }
    }

    /** free_symbol_table: every node is released and the table is empty. */
    method FreeSymbolTable()
      modifies this
      ensures Valid() && entries == []
    {
      entries := [];
    }
  }

  /** After put_symbol_int the name finds the int payload; its tag is INT when
      the name was already present and FLOAT when the entry was new. */
  lemma PutIntTagging(entries: Chain, name: string, value: Int32)
    ensures Find(entries, name).Some? ==>
      Find(Store(entries, IntEntry(entries, name, value)), name) == Some(Symbol(name, TypeInt, IntVal(value)))
    ensures Find(entries, name).None? ==>
      Find(Store(entries, IntEntry(entries, name, value)), name) == Some(Symbol(name, TypeFloat, IntVal(value)))
    ensures Find(entries, name).None? ==> !TagMatches(IntEntry(entries, name, value))
  {
    FindAfterStore(entries, IntEntry(entries, name, value), name);
  }

  /** The strdup copy: once a string is stored, overwriting the caller's whole
      buffer with any other text leaves what lookup returns unchanged. */
  method StringCopyIsIndependent(t: SymbolTable, name: string, buf: array<char>, newText: seq<char>)
      returns (r: Option<Symbol>)
    requires t.Valid() && |newText| == buf.Length
    modifies t, buf
    ensures buf[..] == newText
    ensures r == Some(Symbol(name, TypeString, StringVal(CString(old(buf[..])))))
  {
    var _ := t.PutString(name, buf);
    forall i | 0 <= i < buf.Length {
      buf[i] := newText[i];
    }
    r := t.Lookup(name);
    FindAfterStore(old(t.entries), Symbol(name, TypeString, StringVal(CString(old(buf[..])))), name);
  }
}
