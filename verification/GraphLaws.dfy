/** What declaring, revoking and removing do to the graph, seen through IsSubordinate. */
module GraphLaws {
  import opened Text
  import opened Mail
  import opened Subs
  import opened StoreSpec

  /** The same edge, in whatever case the addresses are given. */
  predicate SameEdge(a: string, b: string, c: string, d: string) {
    EqualFold(a, c) && EqualFold(b, d)
  }

  lemma KeyOfEdge(a: string, b: string, c: string, d: string)
    requires NulFree(a) && NulFree(c)
    ensures SubKey(a, b) == SubKey(c, d) <==> SameEdge(a, b, c, d)
  {
    if SubKey(a, b) == SubKey(c, d) { JoinInjective(a, b, c, d); }
  }

  /** Declaring adds exactly the one edge; it succeeds between two different accounts only. */
  lemma DeclareAdds(s: State, superior: string, subordinate: string, now: int, x: string, y: string)
    requires NulFree(superior) && NulFree(x)
    ensures var (t, r) := Declare(s, superior, subordinate, now);
      && (r.Ok? <==> (!EqualFold(superior, subordinate)
                      && ToLower(superior) in s.accounts && ToLower(subordinate) in s.accounts))
      && (IsSubordinate(t.subs, x, y) <==>
           IsSubordinate(s.subs, x, y) || (r.Ok? && SameEdge(x, y, superior, subordinate)))
  {
    KeyOfEdge(x, y, superior, subordinate);
  }

  /** Revoking removes exactly the one edge, at once. */
  lemma RevokeRemoves(s: State, superior: string, subordinate: string, x: string, y: string)
    requires NulFree(superior) && NulFree(x)
    ensures IsSubordinate(Revoke(s, superior, subordinate).subs, x, y) <==>
      IsSubordinate(s.subs, x, y) && !SameEdge(x, y, superior, subordinate)
  {
    KeyOfEdge(x, y, superior, subordinate);
  }

  /** Removing ends one edge between the two. The relationship is then over exactly if there
      was only one direction: with both, the edge that the other declared is left. */
  lemma RemoveEndsOneDirection(s: State, caller: string, other: string, notice: Message)
    requires NulFree(caller) && NulFree(other) && !EqualFold(caller, other)
    ensures var (t, r) := Remove(s, caller, other, notice);
      var down, up := IsSubordinate(s.subs, other, caller), IsSubordinate(s.subs, caller, other);
      && (r.Ok? <==> down || up)
      && (r.Ok? ==> r.value == if down then Subordinate else Superior)
      && !IsSubordinate(t.subs, other, caller)
      && (IsSubordinate(t.subs, caller, other) <==> down && up)
  {
    KeyOfEdge(caller, other, other, caller);
    KeyOfEdge(other, caller, caller, other);
  }
}
