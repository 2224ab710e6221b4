# BreezeLang symbol tables in Dafny

The BreezeLang interpreter keeps its runtime variable and function bindings in
a symbol table. The repository has two alternative implementations of it, and
this project models both and proves their bookkeeping properties.

- `scope.dfy`, module `Scope` (scope.c): the lexically nested scope stack. The
  module-global `current_scope` and the `parent` links are a stack of frames.
  The class `ScopeStack` holds that stack as `frames: seq<Frame>`. Element 0 is
  the current frame and element k + 1 is the parent of element k. `PushScope`,
  `PopScope` and the five writers `PutInt`, `PutFloat`, `PutString`, `PutBool`
  and `PutFunction` reassign it; `Lookup` only reads it.
- `symtab.dfy`, module `SymTab` (symtab.c): the older flat table. The class
  `SymbolTable` holds the global `symbol_table` list as `entries`.
- `symbols.dfy`, module `Symbols` (symtab.h): the shared record types. A
  `Symbol` has a name, a `ValueType` tag and a `SymbolData` payload. The module
  also holds the list operations both tables perform. `FindIndex` and `Find`
  give the first node with a given name. `Store` overwrites that node in place,
  or links a new node at the head when there is none. The method `Locate` is the
  node-by-node `while` walk shared by every lookup and write in the source.

A linked list of `SymbolNode`s is a sequence, head first. A node's position in
the list is its index. A write that updates a node's `type` and `data` fields
in place replaces the element at that index. Integers are C `int` (`Int32`).
Floats are kept as an opaque 32-bit pattern (`Float32`) because the tables only
store and return them. A function body is an opaque reference to a parser-owned
AST node (`AstRef`). Names are compared as whole strings, as `strcmp` does on
NUL-terminated names. A string argument is an `array<char>` C buffer. The
stored text is `CString(buf[..])`, the characters before the first NUL, which
is what `strdup` copies.

Behaviour kept as the code has it:

- With no current scope, a `put_symbol_*` call exits the process. The model
  returns `NoScopeFatal` and leaves the stack unchanged.
- `pop_scope` with no current scope only warns. `PopScope` then returns `false`
  and changes nothing.
- The code does not protect the global frame. Popping it leaves no current
  scope, and every later write is fatal.
- `put_symbol_function` overwrites an existing entry of the top frame whatever
  its type (scope.c:202-211). A redefinition is not rejected; the model follows
  the code.
- In symtab.c, `put_symbol_int` retags an existing entry INT (symtab.c:69). A
  new entry, however, gets the FLOAT tag with the int as its payload
  (symtab.c:82). `SymTab.IntEntry` and `SymTab.PutIntTagging` state this.
- symtab.c reads and writes a member `val` of the node (`val.num_val`,
  `val.string_val`, for example symtab.c:32, symtab.c:36, symtab.c:102). symtab.h
  has no such member: the node's union is called `data` (symtab.h:95), and it has
  no `num_val` either. The model gives the node a tag plus a payload: `FloatVal` for a stored float and
  `IntVal` for a stored int.

## Model

| member | source | states |
|---|---|---|
| Symbols.FindIndex | symtab.c:13-22 | the result is the position of the first node with the name: every earlier node has another name; no result means no node has it |
| Symbols.Find | scope.c:80-86 | the node found within one chain carries the requested name and is in the chain; nothing is found exactly when no node has that name |
| Symbols.Locate | scope.c:98-110 | the `while (sym)` walk stops at exactly the position FindIndex specifies |
| Symbols.FindAfterStore | scope.c:97-116 | after a write, the written name finds the new tag and payload, and every other name finds what it found before |
| Symbols.StoreShape | symtab.c:27-55 | an update keeps the chain length and the entry's position (in place); an insertion adds exactly one node, at the head |
| Symbols.StoreContents | symtab.c:94-120 | a write keeps names unique, and afterwards the entries are exactly the new one plus the old entries with other names |
| Symbols.CString | scope.c:158 | the copied text is the prefix of the buffer up to (excluding) the first NUL, and contains no NUL |
| Scope.Resolve | scope.c:77-90 | a lookup result always carries the requested name |
| Scope.ResolveInnermost | scope.c:77-90 | the innermost frame that binds the name decides the lookup, whatever the outer frames hold |
| Scope.ResolveNotFound | scope.c:77-90 | a lookup fails exactly when no frame of the stack binds the name |
| Scope.PutTopResolves | scope.c:97-116 | after a write, lookup of the written name yields the new entry, and lookup of every other name is unchanged |
| Scope.PutTopFrames | scope.c:97-116 | a write leaves every enclosing frame as it was; the top frame grows by one only when the name was new there |
| Scope.Shadowing | scope.c:34-116 | a binding made after a push hides the outer one; after the pop the stack is exactly the one before the push |
| Scope.PushResolves | scope.c:34-43 | a freshly pushed frame binds nothing, so every lookup is unchanged by a push |
| Scope.TruthIsNormalised | scope.c:184 | the stored boolean flag is 0 or 1, and it is 1 exactly when the argument was non-zero |
| Scope.ScopeStack.constructor | scope.c:7 | before init_scopes there is no current scope |
| Scope.ScopeStack.InitScopes | scope.c:28-31 | afterwards the stack is exactly one empty frame, with no parent |
| Scope.ScopeStack.PushScope | scope.c:34-43 | a new empty frame on top of the old stack, with every old frame unchanged |
| Scope.ScopeStack.PopScope | scope.c:49-71 | with no current scope, nothing changes and the call reports no pop; otherwise the top frame and all its entries are gone and the parent is current |
| Scope.ScopeStack.Lookup | scope.c:77-90 | the nested walk returns exactly the innermost binding (Resolve) |
| Scope.ScopeStack.Put | scope.c:92-116 | fatal with no current scope and nothing changes; otherwise only the top frame is written (Store), and names stay unique and tags match payloads |
| Scope.ScopeStack.PutInt | scope.c:92-117 | stores an INT entry for the name in the top frame, or fails fatally with no scope |
| Scope.ScopeStack.PutFloat | scope.c:119-143 | stores a FLOAT entry for the name in the top frame, or fails fatally with no scope |
| Scope.ScopeStack.PutString | scope.c:145-169 | stores a STRING entry holding a copy of the caller's C string, or fails fatally with no scope |
| Scope.ScopeStack.PutBool | scope.c:171-195 | stores a BOOL entry with the flag normalised to 0 or 1, or fails fatally with no scope |
| Scope.ScopeStack.PutFunction | scope.c:197-221 | stores a FUNCTION entry over any same-named top-frame entry, or fails fatally with no scope |
| SymTab.SymbolTable.constructor | symtab.c:7 | the table starts empty |
| SymTab.SymbolTable.InitSymbolTable | symtab.c:9-11 | afterwards the table is empty, so no name is found |
| SymTab.SymbolTable.Lookup | symtab.c:13-22 | returns the first node whose name matches, or nothing |
| SymTab.SymbolTable.PutFloat | symtab.c:25-56 | updates the matching node in place, or prepends one new FLOAT node; names stay unique |
| SymTab.SymbolTable.PutInt | symtab.c:59-90 | as PutFloat, but an existing node is tagged INT and a new node is tagged FLOAT |
| SymTab.SymbolTable.PutString | symtab.c:93-121 | updates or prepends a STRING node holding a copy of the caller's C string; names stay unique |
| SymTab.SymbolTable.FreeSymbolTable | symtab.c:124-136 | afterwards the table is empty |
| SymTab.PutIntTagging | symtab.c:63-90 | after put_symbol_int the name finds the int payload, tagged INT if it existed before and FLOAT (a tag that does not match the payload) if it is new |
| SymTab.StringCopyIsIndependent | symtab.c:102-114 | overwriting every cell of the caller's buffer, of any length, after a string put does not change what lookup returns |

## Left out

- Memory management: `malloc`, `free` and `strdup` bookkeeping, the freeing loops of `pop_scope` and `free_symbol_table`, and the exit on allocation failure (scope.c:11-15, scope.c:35-39, symtab.c:42-45, symtab.c:76-79, symtab.c:107-110). Entries are values, so discarding a frame or the table is the whole effect.
- Node identity: the writers and lookups return the node pointer. The model returns the entry's value, so later updates through a returned pointer (aliasing) are not captured.
- Abandoned frames: `init_scopes` resets `current_scope` without freeing the old frames, which leak. The model simply forgets them.
- Diagnostics written to stderr: only their outcome is modelled (a no-op pop, or a fatal put).
- Float payloads: no arithmetic is done on them, so they stay an opaque bit pattern.
- The evaluator (ast.c), the AST helpers and the command-line drivers (main.c, res/main.c) are not part of this model. They call a `put_symbol` and a `symbol->value` that neither table defines.
