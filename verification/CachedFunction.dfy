/**
 * The `cached` decorator of backend/cache/smart_cache.py: when does a cached function answer like
 * the function itself?
 */
module CachedFunction {
  import opened Prelude
  import opened CacheSpec
  import opened CacheLaws

  /** One call of the wrapper: look up, and on a miss compute and remember anything but `None`. */
  function CallAnswer<V>(s: State<V>, key: string, computed: Option<V>, now: real): Option<V> {
    var cached := Lookup(s.store, key, now);
    if cached.Some? then cached else computed
  }

  function AfterCall<V>(cfg: Config, s: State<V>, key: string, computed: Option<V>, ttl: Option<real>, now: real,
                        later: real): State<V>
  {
    var looked := Step(cfg, s, Get(key, now));
    if Lookup(s.store, key, now).Some? || computed.None? then looked
    else Step(cfg, looked, Set(key, computed.value, ttl, later))
  }

  /** Every remembered value is what the function returns for each argument with that key. */
  ghost predicate Consistent<A(!new), V>(store: seq<Entry<V>>, keyOf: A -> string, f: A -> Option<V>) {
    forall e, a :: e in store && keyOf(a) == e.key ==> f(a) == Some(e.value)
  }

  /** Arguments that share a key share their result, unless all of them give nothing. */
  ghost predicate Separates<A(!new), V>(keyOf: A -> string, f: A -> Option<V>) {
    forall a, b :: keyOf(a) == keyOf(b) && f(a).Some? ==> f(b) == f(a)
  }

  /** Operations by anyone else on the same cache: none stores a wrong value under a wrapper key. */
  ghost predicate Harmless<A(!new), V>(op: Op<V>, keyOf: A -> string, f: A -> Option<V>) {
    op.Set? ==> forall a :: keyOf(a) == op.key ==> f(a) == Some(op.value)
  }

  lemma StepKeepsConsistent<A(!new), V>(cfg: Config, s: State<V>, op: Op<V>, keyOf: A -> string, f: A -> Option<V>)
    requires Consistent(s.store, keyOf, f) && Harmless(op, keyOf, f)
    ensures Consistent(Step(cfg, s, op).store, keyOf, f)
  {
    match op {
      case Get(key, now) =>
        FindIsMember(s.store, key);
        WithoutLacks(s.store, key);
      case Set(key, value, ttl, now) =>
        var x := Entry(key, value, Deadline(cfg, ttl, now));
        var placed := Placed(s.store, x, cfg.maxSize);
        WithoutLacks(s.store, key);
        assert forall e :: e in placed ==> e == x || e in s.store;
        KeepMembers(placed, Alive(now));
      case Delete(key) => WithoutLacks(s.store, key);
      case InvalidatePrefix(prefix) => KeepMembers(s.store, Outside(prefix));
      case Clear =>
    }
  }

  /** On a consistent cache a call answers like the function and leaves the cache consistent. */
  lemma CallIsTransparent<A(!new), V>(cfg: Config, s: State<V>, keyOf: A -> string, f: A -> Option<V>, arg: A,
                                ttl: Option<real>, now: real, later: real)
    requires Separates(keyOf, f) && Consistent(s.store, keyOf, f)
    ensures CallAnswer(s, keyOf(arg), f(arg), now) == f(arg)
    ensures Consistent(AfterCall(cfg, s, keyOf(arg), f(arg), ttl, now, later).store, keyOf, f)
  {
    FindIsMember(s.store, keyOf(arg));
    StepKeepsConsistent(cfg, s, Get(keyOf(arg), now), keyOf, f);
    if f(arg).Some? {
      var looked := Step(cfg, s, Get(keyOf(arg), now));
      StepKeepsConsistent(cfg, looked, Set(keyOf(arg), f(arg).value, ttl, later), keyOf, f);
    }
  }

  /** Whatever else happens to the cache, a later call still answers like the function. */
  lemma {:induction false} TransparentAmongOthers<A(!new), V>(cfg: Config, s: State<V>, ops: seq<Op<V>>, keyOf: A -> string,
                                                       f: A -> Option<V>, arg: A, now: real)
    requires Consistent(s.store, keyOf, f)
    requires forall i :: 0 <= i < |ops| ==> Harmless(ops[i], keyOf, f)
    ensures Consistent(Run(cfg, s, ops).store, keyOf, f)
    ensures CallAnswer(Run(cfg, s, ops), keyOf(arg), f(arg), now) == f(arg)
    decreases |ops|
  {
    if ops != [] {
      StepKeepsConsistent(cfg, s, ops[0], keyOf, f);
      TransparentAmongOthers(cfg, Step(cfg, s, ops[0]), ops[1..], keyOf, f, arg, now);
    } else {
      FindIsMember(s.store, keyOf(arg));
    }
  }

  // ---------- Any interleaving of calls ----------

  /** What wrappers of the function do to the cache: look up, and store a result under its key. */
  ghost predicate FromWrapper<A(!new), V>(op: Op<V>, keyOf: A -> string, f: A -> Option<V>) {
    op.Get? || (op.Set? && exists a :: keyOf(a) == op.key && f(a) == Some(op.value))
  }

  /** Where keys separate results, a wrapper's store is right for every argument with that key. */
  lemma WrapperIsHarmless<A(!new), V>(op: Op<V>, keyOf: A -> string, f: A -> Option<V>)
    requires Separates(keyOf, f) && FromWrapper(op, keyOf, f)
    ensures Harmless(op, keyOf, f)
  {
    if op.Set? {
      var a :| keyOf(a) == op.key && f(a) == Some(op.value);
    }
  }

  /**
   * Calls may overlap: while one awaits the function others look up and store. Whatever the
   * interleaving of the look-ups and stores of any number of calls, and of other harmless operations,
   * the next call answers like the function.
   */
  lemma InterleavingsAreTransparent<A(!new), V>(cfg: Config, s: State<V>, ops: seq<Op<V>>, keyOf: A -> string,
                                                f: A -> Option<V>, arg: A, now: real)
    requires Separates(keyOf, f) && Consistent(s.store, keyOf, f)
    requires forall i :: 0 <= i < |ops| ==> FromWrapper(ops[i], keyOf, f) || Harmless(ops[i], keyOf, f)
    ensures CallAnswer(Run(cfg, s, ops), keyOf(arg), f(arg), now) == f(arg)
  {
    forall i | 0 <= i < |ops| ensures Harmless(ops[i], keyOf, f) {
      if !Harmless(ops[i], keyOf, f) {
        WrapperIsHarmless(ops[i], keyOf, f);
      }
    }
    TransparentAmongOthers(cfg, s, ops, keyOf, f, arg, now);
  }

  // ---------- Exactly when the decorator is transparent ----------

  datatype Call<A> = Call(arg: A, now: real)

  /** All answers of a sequence of calls are the function's own. */
  ghost predicate AllTransparent<A(!new), V>(cfg: Config, s: State<V>, calls: seq<Call<A>>, keyOf: A -> string,
                                       f: A -> Option<V>, ttl: Option<real>)
    decreases |calls|
  {
    calls == [] ||
    (var c := calls[0];
     && CallAnswer(s, keyOf(c.arg), f(c.arg), c.now) == f(c.arg)
     && AllTransparent(cfg, AfterCall(cfg, s, keyOf(c.arg), f(c.arg), ttl, c.now, c.now), calls[1..], keyOf, f, ttl))
  }

  lemma {:induction false} SeparatedIsTransparent<A(!new), V>(cfg: Config, s: State<V>, calls: seq<Call<A>>,
                                                       keyOf: A -> string, f: A -> Option<V>, ttl: Option<real>)
    requires Separates(keyOf, f) && Consistent(s.store, keyOf, f)
    ensures AllTransparent(cfg, s, calls, keyOf, f, ttl)
    decreases |calls|
  {
    if calls != [] {
      var c := calls[0];
      CallIsTransparent(cfg, s, keyOf, f, c.arg, ttl, c.now, c.now);
      SeparatedIsTransparent(cfg, AfterCall(cfg, s, keyOf(c.arg), f(c.arg), ttl, c.now, c.now), calls[1..], keyOf, f, ttl);
    }
  }

  /** The time a remembered value lives is not negative. */
  predicate Lives(cfg: Config, ttl: Option<real>) {
    if ttl.Some? then ttl.value >= 0.0 else cfg.defaultTtl >= 0.0
  }

  /** Two calls at the same moment whose keys collide: the second gets the first one's value. */
  lemma CollisionAnswers<V>(cfg: Config, key: string, first: V, second: Option<V>, ttl: Option<real>)
    requires 1 <= cfg.maxSize && Lives(cfg, ttl)
    ensures var s := AfterCall(cfg, State([], 0.0), key, Some(first), ttl, 0.0, 0.0);
      CallAnswer(s, key, second, 0.0) == Some(first)
  {
    var x := Entry(key, first, Deadline(cfg, ttl, 0.0));
    assert Placed([], x, cfg.maxSize) == [x];
    assert Keep([x], Alive(0.0)) == [x];
  }

  /** The decorator is transparent on every sequence of calls exactly when keys separate results. */
  lemma TransparentExactly<A(!new), V>(cfg: Config, keyOf: A -> string, f: A -> Option<V>, ttl: Option<real>)
    requires 1 <= cfg.maxSize && Lives(cfg, ttl)
    ensures (forall calls :: AllTransparent(cfg, State([], 0.0), calls, keyOf, f, ttl)) <==> Separates(keyOf, f)
  {
    var empty: State<V> := State([], 0.0);
    if Separates(keyOf, f) {
      forall calls: seq<Call<A>> ensures AllTransparent(cfg, empty, calls, keyOf, f, ttl) {
        SeparatedIsTransparent(cfg, empty, calls, keyOf, f, ttl);
      }
    } else {
      var a, b :| keyOf(a) == keyOf(b) && f(a).Some? && f(b) != f(a);
      var calls := CollidingCalls(cfg, keyOf, f, ttl, a, b);
    }
  }

  lemma CollidingCalls<A(!new), V>(cfg: Config, keyOf: A -> string, f: A -> Option<V>, ttl: Option<real>, a: A, b: A)
    returns (calls: seq<Call<A>>)
    requires 1 <= cfg.maxSize && Lives(cfg, ttl)
    requires keyOf(a) == keyOf(b) && f(a).Some? && f(b) != f(a)
    ensures !AllTransparent(cfg, State([], 0.0), calls, keyOf, f, ttl)
  {
    var first, second := Call(a, 0.0), Call(b, 0.0);
    calls := [first, second];
    assert calls[1..] == [second];
    CollisionAnswers(cfg, keyOf(a), f(a).value, f(b), ttl);
    var after := AfterCall(cfg, State([], 0.0), keyOf(a), f(a), ttl, 0.0, 0.0);
    assert CallAnswer(after, keyOf(b), f(b), 0.0) == f(a);
    assert !AllTransparent(cfg, after, [second], keyOf, f, ttl);
  }

  // ---------- The default key ----------

  /** The key used when no key function is given: the parts joined by colons. */
  function Join(parts: seq<string>): string {
    if parts == [] then ""
    else if |parts| == 1 then parts[0]
    else parts[0] + ":" + Join(parts[1..])
  }

  function DefaultKey(name: string, args: seq<string>): string {
    Join([name] + args)
  }

  /** The pieces of a text between its colons. */
  function Split(s: string): (pieces: seq<string>)
    ensures pieces != []
  {
    if s == "" then [""] else Extend(s[0], Split(s[1..]))
  }

  /** A colon starts a new piece; any other character belongs to the first one. */
  function Extend(c: char, pieces: seq<string>): (longer: seq<string>)
    requires pieces != []
    ensures longer != []
  {
    if c == ':' then [""] + pieces else [[c] + pieces[0]] + pieces[1..]
  }

  /** The pieces of all arguments, in order. */
  function Pieces(args: seq<string>): seq<string> {
    if args == [] then [] else Split(args[0]) + Pieces(args[1..])
  }

  lemma {:induction false} JoinOfSplit(s: string)
    ensures Join(Split(s)) == s
  {
    if s != "" {
      JoinOfSplit(s[1..]);
      JoinExtends(s[0], Split(s[1..]));
      assert s == [s[0]] + s[1..];
    }
  }

  lemma JoinExtends(c: char, pieces: seq<string>)
    requires pieces != []
    ensures Join(Extend(c, pieces)) == [c] + Join(pieces)
  {
    var longer := Extend(c, pieces);
    assert longer[1..] == if c == ':' then pieces else pieces[1..];
    if c == ':' {
      assert Join(longer) == "" + ":" + Join(pieces);
    } else if |pieces| > 1 {
      assert Join(longer) == [c] + pieces[0] + ":" + Join(pieces[1..]);
    }
  }

  lemma {:induction false} SplitAtColon(a: string, b: string)
    ensures Split(a + ":" + b) == Split(a) + Split(b)
  {
    var s := a + ":" + b;
    if a == "" {
      assert s[1..] == b;
    } else {
      assert s[0] == a[0] && s[1..] == a[1..] + ":" + b;
      SplitAtColon(a[1..], b);
      ExtendsFirst(a[0], Split(a[1..]), Split(b));
    }
  }

  lemma ExtendsFirst(c: char, head: seq<string>, tail: seq<string>)
    requires head != []
    ensures Extend(c, head + tail) == Extend(c, head) + tail
  {
    assert (head + tail)[0] == head[0] && (head + tail)[1..] == head[1..] + tail;
  }

  lemma {:induction false} SplitOfJoin(parts: seq<string>)
    requires parts != []
    ensures Split(Join(parts)) == Pieces(parts)
  {
    if |parts| == 1 {
      assert parts[1..] == [];
      assert Pieces(parts) == Split(parts[0]);
    } else {
      SplitOfJoin(parts[1..]);
      SplitAtColon(parts[0], Join(parts[1..]));
    }
  }

  /** Default keys of one function are equal exactly when the arguments have the same pieces in a row. */
  lemma DefaultKeysExactly(name: string, p: seq<string>, q: seq<string>)
    ensures DefaultKey(name, p) == DefaultKey(name, q) <==> Pieces(p) == Pieces(q)
  {
    SplitOfJoin([name] + p);
    SplitOfJoin([name] + q);
    assert ([name] + p)[1..] == p && ([name] + q)[1..] == q;
    JoinOfSplit(DefaultKey(name, p));
    JoinOfSplit(DefaultKey(name, q));
    SameTail(Split(name), Pieces(p), Pieces(q));
  }

  lemma SameTail(head: seq<string>, a: seq<string>, b: seq<string>)
    ensures head + a == head + b ==> a == b
  {
    assert (head + a)[|head|..] == a && (head + b)[|head|..] == b;
  }

  /** With default keys the decorator is transparent exactly when arguments with the same pieces share their result. */
  lemma DefaultTransparentExactly<V>(cfg: Config, name: string, f: seq<string> -> Option<V>, ttl: Option<real>)
    requires 1 <= cfg.maxSize && Lives(cfg, ttl)
    ensures var keyOf := (args: seq<string>) => DefaultKey(name, args);
      (forall calls :: AllTransparent(cfg, State([], 0.0), calls, keyOf, f, ttl))
      <==> (forall p, q :: Pieces(p) == Pieces(q) && f(p).Some? ==> f(q) == f(p))
  {
    var keyOf := (args: seq<string>) => DefaultKey(name, args);
    TransparentExactly(cfg, keyOf, f, ttl);
    forall p, q ensures keyOf(p) == keyOf(q) <==> Pieces(p) == Pieces(q) {
      DefaultKeysExactly(name, p, q);
    }
  }

  predicate NoColon(part: string) {
    ':' !in part
  }

  ghost predicate NoColons(parts: seq<string>) {
    forall i :: 0 <= i < |parts| ==> NoColon(parts[i])
  }

  lemma {:induction false} SplitNoColon(part: string)
    requires NoColon(part)
    ensures Split(part) == [part]
  {
    if part != "" {
      assert part[0] in part && forall c :: c in part[1..] ==> c in part;
      SplitNoColon(part[1..]);
      assert part == [part[0]] + part[1..];
    }
  }

  lemma {:induction false} PiecesNoColons(args: seq<string>)
    requires NoColons(args)
    ensures Pieces(args) == args
  {
    if args != [] {
      SplitNoColon(args[0]);
      PiecesNoColons(args[1..]);
      assert args == [args[0]] + args[1..];
    }
  }

  /** Default keys of different argument lists can coincide: a colon in an argument looks like a separator. */
  lemma DefaultKeysCollide(name: string, a: string, b: string)
    ensures [a + ":" + b] != [a, b] && DefaultKey(name, [a + ":" + b]) == DefaultKey(name, [a, b])
  {
    var one, two := [a + ":" + b], [a, b];
    SplitAtColon(a, b);
    assert one[1..] == [] && two[1..] == [b] && [b][1..] == [];
    assert Pieces(one) == Split(a + ":" + b);
    assert Pieces([b]) == Split(b);
    DefaultKeysExactly(name, one, two);
  }

  /** In particular argument lists without colons have different default keys when they differ. */
  lemma DefaultKeysSeparate(name: string, p: seq<string>, q: seq<string>)
    requires NoColons(p) && NoColons(q)
    ensures DefaultKey(name, p) == DefaultKey(name, q) <==> p == q
  {
    DefaultKeysExactly(name, p, q);
    PiecesNoColons(p);
    PiecesNoColons(q);
  }
}
