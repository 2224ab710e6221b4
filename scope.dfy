/** The lexically nested scope stack (scope.c). `current_scope` and its
    `parent` links form a stack of frames; it is modelled as a sequence whose
    element 0 is the current (innermost) frame and whose element k + 1 is the
    parent of element k. Each frame is a chain of symbol nodes. */
module Scope {
  import opened Symbols

  /** The symbols of one Scope. */
  type Frame = Chain

  /** What a put_symbol_* call ends in: the stored node, or the fatal exit
      taken when there is no current scope. */
  datatype Outcome = Stored(sym: Symbol) | NoScopeFatal

  /** The invariant of every frame the writers build: names are unique and
      each node's tag matches its payload. */
  predicate WellFormed(f: Frame) {
    UniqueNames(f) && forall j :: 0 <= j < |f| ==> TagMatches(f[j])
  }

  /** lookup_symbol's answer: the match in the innermost frame that binds the name. */
  function Resolve(frames: seq<Frame>, name: string): (r: Option<Symbol>)
    ensures r.Some? ==> r.value.name == name
  {
    if frames == [] then None
    else
      match Find(frames[0], name)
      case Some(s) => Some(s)
      case None => Resolve(frames[1..], name)
  }

  /** The frames after a put_symbol_* call: only the top frame is written. */
  function PutTop(frames: seq<Frame>, s: Symbol): seq<Frame>
    requires frames != []
  {
    [Store(frames[0], s)] + frames[1..]
  }

  /** The put_symbol_bool normalisation `value ? 1 : 0`. */
  function Truth(value: Int32): Int32 {
    if value != 0 then 1 else 0
  }

  class ScopeStack {
    /** current_scope, then its parent, its parent's parent, and so on. */
    var frames: seq<Frame>

    ghost predicate Valid()
      reads this
    {
      forall k :: 0 <= k < |frames| ==> WellFormed(frames[k])
    }

    /** The static initialisation `current_scope = NULL`. */
    constructor ()
      ensures Valid() && frames == []
    {
      frames := [];
    }

    /** init_scopes: forget the stack and push the global scope. */
    method InitScopes()
      modifies this
      ensures Valid() && frames == [[]]
    {
      frames := [];
      PushScope();
    }

    /** push_scope: a new empty frame whose parent is the old current frame. */
    method PushScope()
      requires Valid()
      modifies this
      ensures Valid() && frames == [[]] + old(frames)
    {
      frames := [[]] + frames;
    }

    /** pop_scope: with no current scope only a warning (`popped` is false);
        otherwise the top frame and every entry it owns are discarded and the
        parent becomes current. */
    method PopScope() returns (popped: bool)
      requires Valid()
      modifies this
      ensures Valid()
      ensures popped <==> old(frames) != []
      ensures frames == if popped then old(frames)[1..] else old(frames)
    {
      if frames == [] {
        return false;
      }
      frames := frames[1..];
      return true;
    }

    /** lookup_symbol: search each frame from the top outward. */
    method Lookup(name: string) returns (r: Option<Symbol>)
      ensures r == Resolve(frames, name)
    {
      var k := 0;
      while k < |frames|
        invariant 0 <= k <= |frames|
        invariant Resolve(frames[k..], name) == Resolve(frames, name)
      {
        var i := Locate(frames[k], name);
        if i.Some? {
          return Some(frames[k][i.value]);
        }
        assert frames[k..][1..] == frames[k + 1..];
        k := k + 1;
      }
      return None;
    }

    /** The body shared by the five writers: fatal without a current scope;
        otherwise overwrite the same-named node of the top frame in place, or
        link a new node at the head of the top frame. */
    method Put(s: Symbol) returns (r: Outcome)
      requires Valid() && TagMatches(s)
      modifies this
      ensures Valid()
      ensures old(frames) == [] ==> r == NoScopeFatal && frames == old(frames)
      ensures old(frames) != [] ==> r == Stored(s) && frames == PutTop(old(frames), s)
    {
      if frames == [] {
        return NoScopeFatal;
      }
      var top := frames[0];
      var i := Locate(top, s.name);
      if i.Some? {
        top := top[i.value := s];
      } else {
        top := [s] + top;
      }
      StoreContents(frames[0], s);
      frames := [top] + frames[1..];
      return Stored(s);
    }

    method PutInt(name: string, value: Int32) returns (r: Outcome)
      requires Valid()
      modifies this
      ensures Valid()
      ensures old(frames) == [] ==> r == NoScopeFatal && frames == old(frames)
      ensures old(frames) != [] ==>
        r == Stored(Symbol(name, TypeInt, IntVal(value))) && frames == PutTop(old(frames), r.sym)
    {
      r := Put(Symbol(name, TypeInt, IntVal(value)));
    }

    method PutFloat(name: string, value: Float32) returns (r: Outcome)
      requires Valid()
      modifies this
      ensures Valid()
      ensures old(frames) == [] ==> r == NoScopeFatal && frames == old(frames)
      ensures old(frames) != [] ==>
        r == Stored(Symbol(name, TypeFloat, FloatVal(value))) && frames == PutTop(old(frames), r.sym)
    {
      r := Put(Symbol(name, TypeFloat, FloatVal(value)));
    }

    /** The stored text is a copy of the caller's C string (strdup), so later
        writes to `value` do not reach the table. */
    method PutString(name: string, value: array<char>) returns (r: Outcome)
      requires Valid()
      modifies this
      ensures Valid()
      ensures old(frames) == [] ==> r == NoScopeFatal && frames == old(frames)
      ensures old(frames) != [] ==>
        r == Stored(Symbol(name, TypeString, StringVal(CString(value[..])))) && frames == PutTop(old(frames), r.sym)
    {
      r := Put(Symbol(name, TypeString, StringVal(CString(value[..]))));
    }

    method PutBool(name: string, value: Int32) returns (r: Outcome)
      requires Valid()
      modifies this
      ensures Valid()
      ensures old(frames) == [] ==> r == NoScopeFatal && frames == old(frames)
      ensures old(frames) != [] ==>
        r == Stored(Symbol(name, TypeBool, BoolVal(Truth(value)))) && frames == PutTop(old(frames), r.sym)
    {
      r := Put(Symbol(name, TypeBool, BoolVal(Truth(value))));
    }

    /** Overwrites a same-named entry of the top frame whatever its previous type. */
    method PutFunction(name: string, ast: AstRef) returns (r: Outcome)
      requires Valid()
      modifies this
      ensures Valid()
      ensures old(frames) == [] ==> r == NoScopeFatal && frames == old(frames)
      ensures old(frames) != [] ==>
        r == Stored(Symbol(name, TypeFunction, FuncAst(ast))) && frames == PutTop(old(frames), r.sym)
    {
      r := Put(Symbol(name, TypeFunction, FuncAst(ast)));
    }
  }

  /** A flag stored by put_symbol_bool is 0 or 1, and 1 exactly when the
      argument was non-zero. */
  lemma TruthIsNormalised(value: Int32)
    ensures Truth(value) == 0 || Truth(value) == 1
    ensures Truth(value) == 1 <==> value != 0
  {
  }

  /** The innermost frame that binds a name decides the lookup. */
  lemma {:induction false} ResolveInnermost(frames: seq<Frame>, name: string, k: nat)
    requires k < |frames| && Find(frames[k], name).Some?
    requires forall j :: 0 <= j < k ==> Find(frames[j], name).None?
    ensures Resolve(frames, name) == Find(frames[k], name)
  {
    if k > 0 {
      ResolveInnermost(frames[1..], name, k - 1);
    }
  }

  /** A lookup fails exactly when no frame binds the name. */
  lemma {:induction false} ResolveNotFound(frames: seq<Frame>, name: string)
    ensures Resolve(frames, name).None? <==> forall k :: 0 <= k < |frames| ==> Find(frames[k], name).None?
  {
    if frames != [] {
      ResolveNotFound(frames[1..], name);
      if Find(frames[0], name).None? {
        assert forall k :: 1 <= k < |frames| ==> frames[k] == frames[1..][k - 1];
      }
    }
  }

  /** After a write to the top frame, looking up the written name yields the
      new entry and every other name resolves as before. */
  lemma PutTopResolves(frames: seq<Frame>, s: Symbol, name: string)
    requires frames != []
    ensures Resolve(PutTop(frames, s), name) == if name == s.name then Some(s) else Resolve(frames, name)
  {
    FindAfterStore(frames[0], s, name);
    assert PutTop(frames, s)[1..] == frames[1..];
  }

  /** A write changes the top frame only: every enclosing frame is left as it was,
      and the top frame grows by at most one node. */
  lemma PutTopFrames(frames: seq<Frame>, s: Symbol)
    requires frames != []
    ensures |PutTop(frames, s)| == |frames|
    ensures forall k :: 1 <= k < |frames| ==> PutTop(frames, s)[k] == frames[k]
    ensures |PutTop(frames, s)[0]| == if Find(frames[0], s.name).Some? then |frames[0]| else |frames[0]| + 1
  {
    StoreShape(frames[0], s);
  }

  /** Shadowing: binding a name in a freshly pushed frame hides the outer
      binding while the frame is current, and once the frame is popped the
      stack, and so every lookup, is as before the push. */
  lemma Shadowing(frames: seq<Frame>, s: Symbol, name: string)
    ensures Resolve(PutTop([[]] + frames, s), s.name) == Some(s)
    ensures PutTop([[]] + frames, s)[1..] == frames
    ensures name != s.name ==> Resolve(PutTop([[]] + frames, s), name) == Resolve(frames, name)
  {
    PutTopResolves([[]] + frames, s, s.name);
    PutTopResolves([[]] + frames, s, name);
    assert ([[]] + frames)[1..] == frames;
  }

  /** A pushed frame binds nothing, so lookups see through it. */
  lemma PushResolves(frames: seq<Frame>, name: string)
    ensures Resolve([[]] + frames, name) == Resolve(frames, name)
  {
    assert ([[]] + frames)[1..] == frames;
  }
}
