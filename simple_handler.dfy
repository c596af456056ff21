/**
 * SimpleRequestHandler: a handler made from a regular expression over the request's resource and
 * a generator. Every handler takes the next number of one shared counter for its internal name,
 * compiles its pattern on first use, and marks the responses it generates as its own unless they
 * already name a parent.
 *
 * Regular expressions are not modelled: `compile` stands for `Pattern.compile` and `fullMatch`
 * for `Matcher.matches()` on the compiled pattern.
 */
module SimpleHandlers {
  import opened Wrappers
  import opened Text
  import opened Responses

  /** The shared `AtomicInteger identifier`, starting at 0. */
  class IdentifierCounter {
    var next: nat

    constructor ()
      ensures next == 0
    {
      next := 0;
    }

    /** `getAndIncrement()` */
    method GetAndIncrement() returns (n: nat)
      modifies this
      ensures n == old(next) && next == old(next) + 1
    {
      n := next;
      next := next + 1;
    }
  }

  const NamePrefix: string := "simpleRequestHandler::"

  /** The internal name of the handler that drew number `n`. */
  function InternalName(n: nat): (name: string)
    ensures StartsWith(name, NamePrefix) && name[|NamePrefix|..] == NatToString(n)
  {
    NamePrefix + NatToString(n)
  }

  /** Handlers that drew different numbers have different names. */
  lemma InternalNameInjective(m: nat, n: nat)
    requires InternalName(m) == InternalName(n)
    ensures m == n
  {
    assert InternalName(m)[|NamePrefix|..] == NatToString(m);
    NatToStringInjective(m, n);
  }

  /** `Assert.notNull` failing on the generator's answer. */
  datatype GenerateError = NullResponse

  class SimpleRequestHandler<P(==)> {
    const pattern: string
    /** The counter value the handler drew when it was created. */
    ghost const number: nat
    const internalName: string
    /** `Pattern.compile` */
    const compile: string -> P
    /** `Matcher.matches()`: the whole resource matches the compiled pattern. */
    const fullMatch: (P, string) -> bool
    var compiledPattern: Option<P>

    /** The internal name is the one made from the number the handler drew. */
    ghost predicate Named() {
      internalName == InternalName(number)
    }

    /** Once compiled, the pattern is the compilation of `pattern`. */
    predicate Valid()
      reads this
    {
      compiledPattern.Some? ==> compiledPattern.value == compile(pattern)
    }

    /** The field initialisers: the next number names the handler; nothing is compiled yet. */
    constructor (pattern: string, counter: IdentifierCounter, compile: string -> P, fullMatch: (P, string) -> bool)
      modifies counter
      ensures Valid() && Named()
      ensures this.pattern == pattern && this.compile == compile && this.fullMatch == fullMatch
      ensures number == old(counter.next) && counter.next == old(counter.next) + 1
      ensures compiledPattern == None
    {
      this.pattern := pattern;
      this.compile := compile;
      this.fullMatch := fullMatch;
      var n := counter.GetAndIncrement();
      number := n;
      internalName := InternalName(n);
      compiledPattern := None;
    }

    /** `getPattern()`: compiles on the first call and keeps the result. */
    method GetPattern() returns (p: P)
      requires Valid()
      modifies this`compiledPattern
      ensures Valid()
      ensures p == compile(pattern) && compiledPattern == Some(p)
    {
      if compiledPattern.None? {
        compiledPattern := Some(compile(pattern));
      }
      p := compiledPattern.value;
    }

    /** `matches(request)`: whether the request's resource matches the whole pattern. */
    method Matches(resource: string) returns (b: bool)
      requires Valid()
      modifies this`compiledPattern
      ensures Valid() && compiledPattern.Some?
      ensures b == fullMatch(compile(pattern), resource)
    {
      var p := GetPattern();
      b := fullMatch(p, resource);
    }

    /**
     * `generate(request)`, given the generator's answer: null fails the check; otherwise the same
     * response, whose parent becomes this handler when it had none and is kept when it had one.
     */
    method Generate(response: Response?) returns (r: Result<Response, GenerateError>)
      modifies response
      ensures response != null ==> unchanged(response`header, response`content, response`isText, response`bytes)
      ensures response == null ==> r == Err(NullResponse)
      ensures response != null ==> r == Ok(response)
      ensures response != null && old(response.parent) != null ==> response.parent == old(response.parent)
      ensures response != null && old(response.parent) == null ==> response.parent == this
    {
      if response == null {
        return Err(NullResponse);
      }
      if !response.HasParent() {
        response.SetParent(this);
      }
      r := Ok(response);
    }

    /** `getName()`: the prefix followed by the number the handler drew. */
    function GetName(): (name: string)
      requires Named()
      ensures StartsWith(name, NamePrefix) && name[|NamePrefix|..] == NatToString(number)
    {
      internalName
    }
  }

  /** Two handlers that drew different numbers from the counter report different names. */
  lemma {:induction false} NamesDistinct<P, Q>(h1: SimpleRequestHandler<P>, h2: SimpleRequestHandler<Q>)
    requires h1.Named() && h2.Named()
    requires h1.number != h2.number
    ensures h1.GetName() != h2.GetName()
  {
    if h1.GetName() == h2.GetName() {
      InternalNameInjective(h1.number, h2.number);
    }
  }
}
