/** The configuration expander: `$(NAME)` references are replaced left to right, and a reference cycle
    is fatal. */
module Expander {
  import opened Wrappers

  /** `Cycle` stands for the panic. */
  datatype Outcome = Cycle | Text(value: string)

  // ---- Finding a reference ----

  function FindOpen(text: string, from: nat): (r: Option<nat>)
    requires from <= |text|
    ensures r.Some? ==> from <= r.value && r.value + 1 < |text| && text[r.value] == '$' && text[r.value + 1] == '('
    decreases |text| - from
  {
    if from + 1 >= |text| then None
    else if text[from] == '$' && text[from + 1] == '(' then Some(from)
    else FindOpen(text, from + 1)
  }

  function FindClose(text: string, from: nat): (r: Option<nat>)
    requires from <= |text|
    ensures r.Some? ==> from <= r.value < |text| && text[r.value] == ')'
    decreases |text| - from
  {
    if from == |text| then None else if text[from] == ')' then Some(from) else FindClose(text, from + 1)
  }

  predicate EndsAt(text: string, start: int, end: int) {
    0 <= start && start + 2 <= end < |text| && text[start] == '$' && text[start + 1] == '(' && text[end] == ')'
  }

  /** Where the first complete reference begins and ends. */
  function FindRef(text: string): (r: Option<(nat, nat)>)
    ensures r.Some? ==> r.value.0 + 2 <= r.value.1 < |text| && EndsAt(text, r.value.0, r.value.1)
  {
    var open := FindOpen(text, 0);
    if open.None? then None
    else
      var close := FindClose(text, open.value + 2);
      if close.None? then None else Some((open.value, close.value))
  }

  predicate OpensAt(text: string, i: int) {
    0 <= i < |text| - 1 && text[i] == '$' && text[i + 1] == '('
  }

  lemma {:induction false} OpenIsFirst(text: string, from: nat)
    requires from <= |text|
    ensures var r := FindOpen(text, from);
            forall i :: from <= i < (if r.Some? then r.value else |text|) ==> !OpensAt(text, i)
    decreases |text| - from
  {
    if from + 1 < |text| && FindOpen(text, from) != Some(from) {
      OpenIsFirst(text, from + 1);
    }
  }

  lemma {:induction false} CloseIsFirst(text: string, from: nat)
    requires from <= |text|
    ensures var r := FindClose(text, from);
            forall i :: from <= i < (if r.Some? then r.value else |text|) ==> text[i] != ')'
    decreases |text| - from
  {
    if from < |text| && text[from] != ')' {
      CloseIsFirst(text, from + 1);
    }
  }

  /** The reference found opens at the first `$(` there is and closes at the first `)` behind it; so its
      name may itself contain `$(`. None is found exactly when the first `$(`, if any, is never closed. */
  lemma FindRefIsFirst(text: string)
    ensures var r := FindRef(text);
            && (r.Some? ==>
                  && EndsAt(text, r.value.0, r.value.1)
                  && (forall i :: 0 <= i < r.value.0 ==> !OpensAt(text, i))
                  && (forall i :: r.value.0 + 2 <= i < r.value.1 ==> text[i] != ')'))
            && (r.None? ==> forall i, j :: OpensAt(text, i) && i + 2 <= j < |text| && text[j] == ')' ==>
                              exists k :: 0 <= k < i && OpensAt(text, k))
  {
    OpenIsFirst(text, 0);
    var open := FindOpen(text, 0);
    if open.Some? {
      CloseIsFirst(text, open.value + 2);
      assert OpensAt(text, open.value);
    }
  }

  /** A text, cut at its references. */
  datatype Pieces = End(tail: string) | Ref(before: string, name: string, more: Pieces)

  function Parse(text: string): Pieces
    decreases |text|
  {
    var ref := FindRef(text);
    if ref.None? then End(text)
    else
      var (start, end) := ref.value;
      Ref(text[..start], text[start + 2..end], Parse(text[end + 1..]))
  }

  function Unresolved(key: string): string {
    "$(" + key + ")"
  }

  function Show(pieces: Pieces): string {
    match pieces
    case End(tail) => tail
    case Ref(before, name, more) => before + Unresolved(name) + Show(more)
  }

  lemma Verbatim(text: string, start: nat, end: nat)
    requires EndsAt(text, start, end)
    ensures text[..end + 1] == text[..start] + Unresolved(text[start + 2..end])
  {
    assert text[start..start + 2] == "$(" && text[end..end + 1] == ")";
    assert text[..end + 1] == text[..start] + text[start..start + 2] + text[start + 2..end] + text[end..end + 1];
  }

  /** Cutting loses nothing. */
  lemma {:induction false} ShowParse(text: string)
    ensures Show(Parse(text)) == text
    decreases |text|
  {
    var ref := FindRef(text);
    if ref.Some? {
      Verbatim(text, ref.value.0, ref.value.1);
      ShowParse(text[ref.value.1 + 1..]);
      assert text == text[..ref.value.1 + 1] + text[ref.value.1 + 1..];
    }
  }

  // ---- Resolution ----

  type Values = map<string, string>

  function Elements(s: seq<string>): set<string> {
    set k | k in s
  }

  function Prepend(prefix: string, rest: Outcome): Outcome {
    if rest.Cycle? then Cycle else Text(prefix + rest.value)
  }

  function Resolve(values: Values, key: string, visiting: seq<string>): Outcome
    decreases |values.Keys - Elements(visiting)|, 0
  {
    if key in visiting then Cycle
    else if key !in values then Text(Unresolved(key))
    else
      OneLess(values, key, visiting);
      ResolvePieces(values, Parse(values[key]), visiting + [key])
  }

  function ResolvePieces(values: Values, pieces: Pieces, visiting: seq<string>): Outcome
    decreases |values.Keys - Elements(visiting)|, 2, pieces
  {
    match pieces
    case End(tail) => Text(tail)
    case Ref(before, name, more) =>
      var here := ResolveRef(values, name, visiting);
      if here.Cycle? then Cycle else Prepend(before + here.value, ResolvePieces(values, more, visiting))
  }

  /** One reference: an unknown name stays as it is. */
  function ResolveRef(values: Values, name: string, visiting: seq<string>): Outcome
    decreases |values.Keys - Elements(visiting)|, 1
  {
    if name in values then Resolve(values, name, visiting) else Text(Unresolved(name))
  }

  /** Each level of nesting takes one key out of play. */
  lemma OneLess(values: Values, key: string, visiting: seq<string>)
    requires key in values && key !in visiting
    ensures |values.Keys - Elements(visiting + [key])| < |values.Keys - Elements(visiting)|
  {
    assert values.Keys - Elements(visiting + [key]) == (values.Keys - Elements(visiting)) - {key};
  }

  class ConfigResolver {
    const values: Values
    var visiting: seq<string>

    constructor (values: Values)
      ensures this.values == values && visiting == []
    {
      this.values := values;
      visiting := [];
    }

    /** Expands one key; the stack of keys being expanded is left as it was. */
    method ResolveValue(key: string) returns (r: Outcome)
      modifies this
      ensures r == Resolve(values, key, old(visiting))
      ensures r.Text? ==> visiting == old(visiting)
      decreases |values.Keys - Elements(visiting)|, 0
    {
      if key in visiting {
        return Cycle;
      }
      if key !in values {
        return Text(Unresolved(key));
      }
      OneLess(values, key, visiting);
      visiting := visiting + [key];
      r := ReplaceReferences(values[key]);
      if r.Text? {
        visiting := visiting[..|visiting| - 1];
      }
    }

    /** Replaces the references of a text in place, left to right, each by its whole expansion. */
    method ReplaceReferences(text: string) returns (r: Outcome)
      modifies this
      ensures r == ResolvePieces(values, Parse(text), old(visiting))
      ensures r.Text? ==> visiting == old(visiting)
      decreases |values.Keys - Elements(visiting)|, 2
    {
      var value, searchFrom, step := text, 0, Handled;
      ghost var meant := Pending(values, text, 0, visiting);
      Started(values, text, visiting);
      while step.Handled?
        invariant 0 <= searchFrom <= |value|
        invariant step.Handled? ==> visiting == old(visiting) && Pending(values, value, searchFrom, visiting) == meant
        invariant step.Exhausted? ==> visiting == old(visiting) && meant == Text(value)
        invariant step.Cyclic? ==> meant == Cycle
        decreases step.Handled?, |value| - searchFrom
      {
        step, value, searchFrom := ReplaceNext(value, searchFrom);
      }
      r := if step.Cyclic? then Cycle else Text(value);
    }

    /** The next reference from `searchFrom` on, if there is one: replaced if its key is known, else
        skipped. */
    method ReplaceNext(value: string, searchFrom: nat) returns (step: Look, newValue: string, newFrom: nat)
      requires searchFrom <= |value|
      modifies this
      ensures newFrom <= |newValue|
      ensures step.Exhausted? ==>
                && visiting == old(visiting) && newValue == value
                && Pending(values, value, searchFrom, visiting) == Text(value)
      ensures step.Cyclic? ==> Pending(values, value, searchFrom, old(visiting)) == Cycle
      ensures step.Handled? ==>
                && visiting == old(visiting) && |newValue| - newFrom < |value| - searchFrom
                && Pending(values, newValue, newFrom, visiting) == Pending(values, value, searchFrom, visiting)
      decreases |values.Keys - Elements(visiting)|, 1
    {
      ghost var stack := visiting;
      newValue, newFrom := value, searchFrom;
      var ref := FindRef(value[searchFrom..]);
      if ref.None? {
        Finished(values, value, searchFrom, stack);
        return Exhausted, value, searchFrom;
      }
      var start, end := searchFrom + ref.value.0, searchFrom + ref.value.1;
      var nestedKey := value[start + 2..end];
      if nestedKey !in values {
        PassedUnknown(values, value, searchFrom, start, end, stack);
        return Handled, value, end + 1;
      }
      var nestedValue := ResolveValue(nestedKey);
      if nestedValue.Cycle? {
        PassedCycle(values, value, searchFrom, start, end, stack);
        return Cyclic, value, searchFrom;
      }
      newValue := value[..start] + nestedValue.value + value[end + 1..];
      newFrom := start + |nestedValue.value|;
      PassedKnown(values, value, searchFrom, start, end, stack, newValue, newFrom);
      step := Handled;
    }
  }

  /** Whether a look for the next reference dealt with one, found none, or ran into a cycle. */
  datatype Look = Handled | Exhausted | Cyclic

  /** The outcome when everything before `from` is final and the rest is still to be resolved. */
  function Pending(values: Values, value: string, from: nat, visiting: seq<string>): Outcome
    requires from <= |value|
  {
    Prepend(value[..from], ResolvePieces(values, Parse(value[from..]), visiting))
  }

  lemma Started(values: Values, text: string, visiting: seq<string>)
    ensures Pending(values, text, 0, visiting) == ResolvePieces(values, Parse(text), visiting)
  {
    assert text[0..] == text;
  }

  lemma Finished(values: Values, value: string, from: nat, visiting: seq<string>)
    requires from <= |value| && FindRef(value[from..]).None?
    ensures Pending(values, value, from, visiting) == Text(value)
  {
    assert value == value[..from] + value[from..];
  }

  lemma Slices(value: string, from: nat, start: nat, end: nat)
    requires from <= start && start + 2 <= end < |value|
    ensures value[from..][..start - from] == value[from..start]
    ensures value[from..][start - from + 2..end - from] == value[start + 2..end]
    ensures value[from..][end - from + 1..] == value[end + 1..]
    ensures EndsAt(value[from..], start - from, end - from) ==> EndsAt(value, start, end)
  {
  }

  lemma ParseAt(text: string, start: nat, end: nat)
    requires FindRef(text) == Some((start, end))
    ensures EndsAt(text, start, end) && Parse(text) == Ref(text[..start], text[start + 2..end], Parse(text[end + 1..]))
  {
  }

  lemma FoundInside(value: string, from: nat, start: nat, end: nat)
    requires from <= start && start + 2 <= end < |value| && FindRef(value[from..]) == Some((start - from, end - from))
    ensures Parse(value[from..]) == Ref(value[from..start], value[start + 2..end], Parse(value[end + 1..]))
    ensures EndsAt(value, start, end)
  {
    ParseAt(value[from..], start - from, end - from);
    Slices(value, from, start, end);
  }

  /** A reference was replaced by what its key expands to: the outcome stays the same. */
  lemma PassedKnown(values: Values, value: string, from: nat, start: nat, end: nat, visiting: seq<string>,
                    newValue: string, newFrom: nat)
    requires from <= start && start + 2 <= end < |value| && FindRef(value[from..]) == Some((start - from, end - from))
    requires value[start + 2..end] in values && Resolve(values, value[start + 2..end], visiting).Text?
    requires var nested := Resolve(values, value[start + 2..end], visiting).value;
             newValue == value[..start] + nested + value[end + 1..] && newFrom == start + |nested|
    ensures Pending(values, newValue, newFrom, visiting) == Pending(values, value, from, visiting)
  {
    var name := value[start + 2..end];
    FoundInside(value, from, start, end);
    PassedPiece(values, value[..from], value[from..start], name, Parse(value[end + 1..]), visiting);
    assert value[..from] + value[from..start] == value[..start];
    Replaced(value[..start], Resolve(values, name, visiting).value, value[end + 1..]);
  }

  /** A reference to no known key was skipped. */
  lemma PassedUnknown(values: Values, value: string, from: nat, start: nat, end: nat, visiting: seq<string>)
    requires from <= start && start + 2 <= end < |value| && FindRef(value[from..]) == Some((start - from, end - from))
    requires value[start + 2..end] !in values
    ensures Pending(values, value, end + 1, visiting) == Pending(values, value, from, visiting)
  {
    var name := value[start + 2..end];
    FoundInside(value, from, start, end);
    Verbatim(value, start, end);
    PassedPiece(values, value[..from], value[from..start], name, Parse(value[end + 1..]), visiting);
    assert value[..from] + value[from..start] == value[..start];
  }

  lemma PassedCycle(values: Values, value: string, from: nat, start: nat, end: nat, visiting: seq<string>)
    requires from <= start && start + 2 <= end < |value| && FindRef(value[from..]) == Some((start - from, end - from))
    requires value[start + 2..end] in values && Resolve(values, value[start + 2..end], visiting).Cycle?
    ensures Pending(values, value, from, visiting) == Cycle
  {
    FoundInside(value, from, start, end);
    PassedPiece(values, value[..from], value[from..start], value[start + 2..end], Parse(value[end + 1..]), visiting);
  }

  lemma Replaced(a: string, b: string, c: string)
    ensures (a + b + c)[..|a| + |b|] == a + b && (a + b + c)[|a| + |b|..] == c
  {
  }

  lemma PassedPiece(values: Values, done: string, before: string, name: string, more: Pieces, visiting: seq<string>)
    ensures var here := ResolveRef(values, name, visiting);
            Prepend(done, ResolvePieces(values, Ref(before, name, more), visiting)) ==
              if here.Cycle? then Cycle
              else Prepend(done + before + here.value, ResolvePieces(values, more, visiting))
  {
    var here := ResolveRef(values, name, visiting);
    if here.Text? {
      PrependTwice(done, before + here.value, ResolvePieces(values, more, visiting));
      assert done + (before + here.value) == done + before + here.value;
    }
  }

  lemma PrependTwice(a: string, b: string, rest: Outcome)
    ensures Prepend(a, Prepend(b, rest)) == Prepend(a + b, rest)
  {
    if rest.Text? {
      assert a + (b + rest.value) == a + b + rest.value;
    }
  }

  // ---- References and walks along them ----

  /** The known keys a text refers to. */
  function Refs(values: Values, pieces: Pieces): set<string> {
    match pieces
    case End(_) => {}
    case Ref(_, name, more) => (if name in values then {name} else {}) + Refs(values, more)
  }

  predicate Edge(values: Values, a: string, b: string) {
    a in values && b in Refs(values, Parse(values[a]))
  }

  predicate IsWalk(values: Values, path: seq<string>) {
    path != [] && forall i :: 0 <= i < |path| - 1 ==> Edge(values, path[i], path[i + 1])
  }

  predicate ClosesLoop(path: seq<string>)
    requires path != []
  {
    path[|path| - 1] in path[..|path| - 1]
  }

  /** Following references from `key` one can come back to a key already passed. */
  ghost predicate ReachesCycle(values: Values, key: string) {
    exists path :: IsWalk(values, path) && path[0] == key && ClosesLoop(path)
  }

  /** A text resolves exactly when everything it refers to does. */
  lemma {:induction false} TextResolvesIff(values: Values, pieces: Pieces, visiting: seq<string>)
    ensures ResolvePieces(values, pieces, visiting).Text? <==>
              forall name :: name in Refs(values, pieces) ==> Resolve(values, name, visiting).Text?
    decreases pieces
  {
    if pieces.Ref? {
      TextResolvesIff(values, pieces.more, visiting);
      var known := if pieces.name in values then {pieces.name} else {};
      assert Refs(values, pieces) == known + Refs(values, pieces.more);
      assert ResolveRef(values, pieces.name, visiting).Text?
             <==> forall name :: name in known ==> Resolve(values, name, visiting).Text?;
    }
  }

  /** A failed expansion has found its way back: a walk from the key to itself or to a key below it on
      the stack. */
  lemma {:induction false} CycleWitness(values: Values, key: string, visiting: seq<string>) returns (path: seq<string>)
    requires Resolve(values, key, visiting).Cycle?
    ensures IsWalk(values, path) && path[0] == key && (path[|path| - 1] in visiting || ClosesLoop(path))
    decreases |values.Keys - Elements(visiting)|
  {
    if key in visiting {
      path := [key];
    } else {
      OneLess(values, key, visiting);
      TextResolvesIff(values, Parse(values[key]), visiting + [key]);
      var name :| name in Refs(values, Parse(values[key])) && Resolve(values, name, visiting + [key]).Cycle?;
      var rest := CycleWitness(values, name, visiting + [key]);
      path := [key] + rest;
      assert path[..|path| - 1] == [key] + rest[..|rest| - 1];
      forall i | 0 <= i < |path| - 1 ensures Edge(values, path[i], path[i + 1]) {
        if i > 0 {
          assert Edge(values, rest[i - 1], rest[i]);
        }
      }
    }
  }

  /** What a successful expansion visits along any walk is new each time. */
  lemma {:induction false} WalkStaysFresh(values: Values, key: string, visiting: seq<string>, path: seq<string>)
    requires Resolve(values, key, visiting).Text? && IsWalk(values, path) && path[0] == key
    ensures forall k :: k in path ==> k !in visiting
    ensures forall i, j :: 0 <= i < j < |path| ==> path[i] != path[j]
    decreases |path|
  {
    if |path| > 1 {
      assert Edge(values, path[0], path[1]);
      TextResolvesIff(values, Parse(values[key]), visiting + [key]);
      var rest := path[1..];
      forall i | 0 <= i < |rest| - 1 ensures Edge(values, rest[i], rest[i + 1]) {
        assert Edge(values, path[i + 1], path[i + 2]);
      }
      WalkStaysFresh(values, path[1], visiting + [key], rest);
      forall j | 0 < j < |path| ensures path[j] !in visiting && path[j] != key {
        assert path[j] == rest[j - 1] && rest[j - 1] in rest;
      }
    }
  }

  lemma DistinctNeverCloses(path: seq<string>)
    requires path != [] && forall i, j :: 0 <= i < j < |path| ==> path[i] != path[j]
    ensures !ClosesLoop(path)
  {
  }

  /** The expansion panics exactly when the key reaches a reference cycle; keys shared by several
      references without a cycle never trip it. */
  lemma PanicsIffCyclic(values: Values, key: string)
    ensures Resolve(values, key, []).Cycle? <==> ReachesCycle(values, key)
  {
    if Resolve(values, key, []).Cycle? {
      var path := CycleWitness(values, key, []);
    } else {
      forall path | IsWalk(values, path) && path[0] == key ensures !ClosesLoop(path) {
        WalkStaysFresh(values, key, [], path);
        DistinctNeverCloses(path);
      }
    }
  }

  // ---- The expansion does not depend on the stack ----

  lemma {:induction false} FewerVisited(values: Values, key: string, few: seq<string>, many: seq<string>)
    requires Elements(few) <= Elements(many) && Resolve(values, key, many).Text?
    ensures Resolve(values, key, few) == Resolve(values, key, many)
    decreases |values.Keys - Elements(few)|, 0
  {
    assert key !in few by {
      assert key in few ==> key in Elements(many);
    }
    if key in values {
      OneLess(values, key, few);
      assert Elements(few + [key]) == Elements(few) + {key} && Elements(many + [key]) == Elements(many) + {key};
      FewerVisitedPieces(values, Parse(values[key]), few + [key], many + [key]);
    }
  }

  lemma {:induction false} FewerVisitedPieces(values: Values, pieces: Pieces, few: seq<string>, many: seq<string>)
    requires Elements(few) <= Elements(many) && ResolvePieces(values, pieces, many).Text?
    ensures ResolvePieces(values, pieces, few) == ResolvePieces(values, pieces, many)
    decreases |values.Keys - Elements(few)|, 1, pieces
  {
    if pieces.Ref? {
      if pieces.name in values {
        FewerVisited(values, pieces.name, few, many);
      }
      FewerVisitedPieces(values, pieces.more, few, many);
    }
  }

  /** What a key expands to on its own. */
  function Meaning(values: Values, name: string): string {
    var r := Resolve(values, name, []);
    if r.Text? then r.value else ""
  }

  /** Left to right: text as it is, known references by their meaning, unknown ones verbatim. */
  function Expanded(values: Values, pieces: Pieces): string {
    match pieces
    case End(tail) => tail
    case Ref(before, name, more) =>
      before + (if name in values then Meaning(values, name) else Unresolved(name)) + Expanded(values, more)
  }

  lemma {:induction false} ExpandedPieces(values: Values, pieces: Pieces, visiting: seq<string>)
    requires ResolvePieces(values, pieces, visiting).Text?
    ensures ResolvePieces(values, pieces, visiting).value == Expanded(values, pieces)
    decreases pieces
  {
    if pieces.Ref? {
      ExpandedPieces(values, pieces.more, visiting);
      if pieces.name in values {
        FewerVisited(values, pieces.name, [], visiting);
      }
    }
  }

  /** Off cycles, wherever in an expansion a key is met, it stands for its value with every known
      reference replaced by that key's own expansion; a missing key stands for the reference itself. */
  lemma ExpansionEquation(values: Values, key: string, visiting: seq<string>)
    requires Resolve(values, key, visiting).Text?
    ensures Resolve(values, key, visiting).value == Meaning(values, key)
    ensures Meaning(values, key) == if key in values then Expanded(values, Parse(values[key])) else Unresolved(key)
  {
    FewerVisited(values, key, [], visiting);
    if key in values {
      ExpandedPieces(values, Parse(values[key]), [] + [key]);
    }
  }

  /** A text that refers to no known key expands to itself. */
  lemma {:induction false} NothingKnown(values: Values, pieces: Pieces)
    ensures Refs(values, pieces) == {} ==> Expanded(values, pieces) == Show(pieces)
    decreases pieces
  {
    if pieces.Ref? {
      var known := if pieces.name in values then {pieces.name} else {};
      assert Refs(values, pieces) == known + Refs(values, pieces.more);
      assert pieces.name in values <==> pieces.name in known;
      NothingKnown(values, pieces.more);
    }
  }
}
