/**
 * RequestManager: an ordered, mutable list of request handlers. `add` refuses a handler whose
 * `toString()` equals, ignoring case, that of one already registered; `match` returns the first
 * registered handler the request matches, or what the 404 generator makes of the request.
 *
 * Handlers and requests are left abstract: `toString` and `matches` (the request's
 * `matches` predicate) are given to the manager when it is built.
 */
module Router {
  import opened Wrappers
  import opened Text
  import opened Sequences

  /** IllegalArgumentException("Duplicate view pattern!") */
  datatype RouterError = DuplicateViewPattern

  /** No two handlers of `views` have `toString()` values equal ignoring case. */
  predicate UniquePatterns<H>(views: seq<H>, toString: H -> string) {
    forall i, j :: 0 <= i < j < |views| ==> !EqualsIgnoreCase(toString(views[i]), toString(views[j]))
  }

  /** Some registered handler has a `toString()` equal, ignoring case, to that of `view`. */
  predicate Clashes<H>(views: seq<H>, toString: H -> string, view: H) {
    exists i :: 0 <= i < |views| && EqualsIgnoreCase(toString(views[i]), toString(view))
  }

  /** Appending a handler that clashes with none keeps the patterns unique. */
  lemma AppendKeepsUnique<H>(views: seq<H>, toString: H -> string, view: H)
    requires UniquePatterns(views, toString)
    requires !Clashes(views, toString, view)
    ensures UniquePatterns(views + [view], toString)
  {
    var vs := views + [view];
    forall i, j | 0 <= i < j < |vs|
      ensures !EqualsIgnoreCase(toString(vs[i]), toString(vs[j]))
    {
      if j == |views| {
        assert vs[i] == views[i];
      }
    }
  }

  /** Removing one handler keeps the patterns unique. */
  lemma DeleteKeepsUnique<H>(views: seq<H>, toString: H -> string, k: nat)
    requires UniquePatterns(views, toString) && k < |views|
    ensures UniquePatterns(views[..k] + views[k + 1..], toString)
  {
    var vs := views[..k] + views[k + 1..];
    forall i, j | 0 <= i < j < |vs|
      ensures !EqualsIgnoreCase(toString(vs[i]), toString(vs[j]))
    {
      var i' := if i < k then i else i + 1;
      var j' := if j < k then j else j + 1;
      assert vs[i] == views[i'] && vs[j] == views[j'];
    }
  }

  class RequestManager<Req, H(==)> {
    const toString: H -> string
    const matches: (Req, H) -> bool
    var views: seq<H>
    var error404Generator: Req -> H

    ghost predicate Valid()
      reads this
    {
      UniquePatterns(views, toString)
    }

    constructor (toString: H -> string, matches: (Req, H) -> bool, error404Generator: Req -> H)
      ensures Valid()
      ensures this.toString == toString && this.matches == matches
      ensures views == [] && this.error404Generator == error404Generator
    {
      this.toString := toString;
      this.matches := matches;
      this.views := [];
      this.error404Generator := error404Generator;
    }

    /**
     * `add(view)`: a handler whose `toString()` equals one already registered, ignoring case, is
     * refused and the list is left alone; otherwise it is appended and returned.
     */
    method Add(view: H) returns (r: Result<H, RouterError>)
      requires Valid()
      modifies this`views
      ensures Valid()
      ensures Clashes(old(views), toString, view) ==> r == Err(DuplicateViewPattern) && views == old(views)
      ensures !Clashes(old(views), toString, view) ==> r == Ok(view) && views == old(views) + [view]
    {
      var clash := FirstIndex(views, v => EqualsIgnoreCase(toString(v), toString(view)));
      if clash.Some? {
        return Err(DuplicateViewPattern);
      }
      AppendKeepsUnique(views, toString, view);
      views := views + [view];
      r := Ok(view);
    }

    /**
     * `match(request)`: the first registered handler, in registration order, that the request
     * matches; the 404 generator's handler exactly when none does.
     */
    function Match(request: Req): (h: H)
      reads this
      ensures (exists i :: 0 <= i < |views| && matches(request, views[i])) ==>
        exists i :: 0 <= i < |views| && h == views[i] && matches(request, views[i])
                    && forall j :: 0 <= j < i ==> !matches(request, views[j])
      ensures (forall i :: 0 <= i < |views| ==> !matches(request, views[i])) ==>
        h == error404Generator(request)
    {
      match FirstIndex(views, v => matches(request, v))
      case Some(i) => views[i]
      case None => error404Generator(request)
    }

    /** `remove(view)`: deletes the (first) occurrence of `view` when present. */
    method Remove(view: H)
      requires Valid()
      modifies this`views
      ensures Valid()
      ensures view !in old(views) ==> views == old(views)
      ensures view in old(views) ==>
        exists k :: 0 <= k < |old(views)| && old(views)[k] == view && view !in old(views)[..k]
                    && views == old(views)[..k] + old(views)[k + 1..]
    {
      var at := FirstIndex(views, v => v == view);
      if at.Some? {
        var k := at.value;
        assert view !in views[..k] by {
          forall j | 0 <= j < k ensures views[..k][j] != view { assert views[..k][j] == views[j]; }
        }
        DeleteKeepsUnique(views, toString, k);
        views := views[..k] + views[k + 1..];
      }
    }

    /** The Lombok setter of `error404Generator`: later unmatched requests go to `g`; the list is kept. */
    method SetError404Generator(g: Req -> H)
      requires Valid()
      modifies this`error404Generator
      ensures Valid() && error404Generator == g
    {
      error404Generator := g;
    }

    /** `clear()`: no handler is left. */
    method Clear()
      requires Valid()
      modifies this`views
      ensures Valid() && views == []
    {
      views := [];
    }
  }
}
