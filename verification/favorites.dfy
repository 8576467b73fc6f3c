/** The favourites list (App.tsx `toggleFavorite` and the drawer's delete
    button). Favourites are identified by title when toggled and by id when
    deleted from the drawer; the list is kept most recent first. */
module Favorites {

  import opened Outcomes
  import opened Domain

  /** The order-preserving sub-sequence of `s` whose elements satisfy
      `keep` (`Array.prototype.filter`). */
  function Filter<T(!new)>(s: seq<T>, keep: T -> bool): (r: seq<T>)
    ensures |r| <= |s|
    ensures forall x :: x in r <==> x in s && keep(x)
    ensures forall x :: multiset(r)[x] == if keep(x) then multiset(s)[x] else 0
  {
    if |s| == 0 then []
    else
      var rest := Filter(s[1..], keep);
      assert s == [s[0]] + s[1..];
      if keep(s[0]) then [s[0]] + rest else rest
  }

  /** Filtering distributes over concatenation, so it keeps the relative
      order of the elements it retains. */
  lemma {:induction false} FilterAppend<T(!new)>(a: seq<T>, b: seq<T>, keep: T -> bool)
    ensures Filter(a + b, keep) == Filter(a, keep) + Filter(b, keep)
  {
    if |a| == 0 {
      assert a + b == b;
    } else {
      var ab := a + b;
      assert ab[0] == a[0];
      assert ab[1..] == a[1..] + b;
      FilterAppend(a[1..], b, keep);
      if keep(a[0]) {
        calc {
          Filter(ab, keep);
          [a[0]] + Filter(a[1..] + b, keep);
          [a[0]] + (Filter(a[1..], keep) + Filter(b, keep));
          ([a[0]] + Filter(a[1..], keep)) + Filter(b, keep);
        }
      }
    }
  }

  /** Filtering a list whose every element is kept returns the list. */
  lemma {:induction false} FilterKeepsAll<T(!new)>(s: seq<T>, keep: T -> bool)
    requires forall i :: 0 <= i < |s| ==> keep(s[i])
    ensures Filter(s, keep) == s
  {
    if |s| > 0 {
      FilterKeepsAll(s[1..], keep);
      assert s == [s[0]] + s[1..];
    }
  }

  /** Whether some favourite carries the title (`favorites.find(...)`). */
  predicate HasTitle(favorites: seq<SavedEntry>, title: string) {
    exists i :: 0 <= i < |favorites| && favorites[i].Title() == title
  }

  /** `favorites.filter(f => f.title !== title)`. */
  function WithoutTitle(favorites: seq<SavedEntry>, title: string): (r: seq<SavedEntry>)
    ensures !HasTitle(r, title)
    ensures forall f :: f in r <==> f in favorites && f.Title() != title
    ensures !HasTitle(favorites, title) ==> r == favorites
  {
    TitleFilterFacts(favorites, title);
    Filter(favorites, (f: SavedEntry) => f.Title() != title)
  }

  lemma TitleFilterFacts(favorites: seq<SavedEntry>, title: string)
    ensures var r := Filter(favorites, (f: SavedEntry) => f.Title() != title);
            && !HasTitle(r, title)
            && (!HasTitle(favorites, title) ==> r == favorites)
  {
    var r := Filter(favorites, (f: SavedEntry) => f.Title() != title);
    if !HasTitle(favorites, title) {
      FilterKeepsAll(favorites, (f: SavedEntry) => f.Title() != title);
    }
    forall i | 0 <= i < |r|
      ensures r[i].Title() != title
    {
      assert r[i] in r;
    }
  }

  /** `favorites.filter(f => f.id !== id)`, the drawer's delete button. */
  function DeleteById(favorites: seq<SavedEntry>, id: string): (r: seq<SavedEntry>)
    ensures forall f :: f in r <==> f in favorites && f.id != id
    ensures forall f: SavedEntry :: f.id != id ==> multiset(r)[f] == multiset(favorites)[f]
    ensures (forall i :: 0 <= i < |favorites| ==> favorites[i].id != id) ==> r == favorites
  {
    IdFilterFacts(favorites, id);
    Filter(favorites, (f: SavedEntry) => f.id != id)
  }

  lemma IdFilterFacts(favorites: seq<SavedEntry>, id: string)
    ensures (forall i :: 0 <= i < |favorites| ==> favorites[i].id != id) ==>
      Filter(favorites, (f: SavedEntry) => f.id != id) == favorites
  {
    if forall i :: 0 <= i < |favorites| ==> favorites[i].id != id {
      FilterKeepsAll(favorites, (f: SavedEntry) => f.id != id);
    }
  }

  /** Deleting keeps the remaining favourites in their relative order:
      deleting from a concatenation deletes from each part. */
  lemma DeleteByIdAppend(a: seq<SavedEntry>, b: seq<SavedEntry>, id: string)
    ensures DeleteById(a + b, id) == DeleteById(a, id) + DeleteById(b, id)
  {
    FilterAppend(a, b, (f: SavedEntry) => f.id != id);
  }

  /** The part of the page `toggleFavorite` acts on. */
  datatype FavoritesView = FavoritesView(favorites: seq<SavedEntry>, loginPrompt: bool)

  /** `toggleFavorite`: with no displayed result nothing happens; with no
      user the sign-in prompt opens; otherwise a favourite with the result's
      title is removed (all of them) or a new one is put first. `id` and
      `timestamp` are the clock readings the source takes from `Date.now()`. */
  function Toggle(view: FavoritesView, result: Option<Reflection>, user: Option<User>,
                  id: string, timestamp: int): (r: FavoritesView)
    ensures result.None? ==> r == view
    ensures result.Some? && user.None? ==> r == view.(loginPrompt := true)
    ensures result.Some? && user.Some? ==> r.loginPrompt == view.loginPrompt
    ensures result.Some? && user.Some? && HasTitle(view.favorites, result.value.title) ==>
      r.favorites == WithoutTitle(view.favorites, result.value.title)
    ensures result.Some? && user.Some? && HasTitle(view.favorites, result.value.title) ==>
      !HasTitle(r.favorites, result.value.title) &&
      forall f :: f in r.favorites <==> f in view.favorites && f.Title() != result.value.title
    ensures result.Some? && user.Some? && !HasTitle(view.favorites, result.value.title) ==>
      && |r.favorites| == |view.favorites| + 1
      && r.favorites[0] == SavedEntry(result.value, id, timestamp)
      && r.favorites[1..] == view.favorites
  {
    match result
    case None => view
    case Some(reflection) =>
      if user.None? then view.(loginPrompt := true)
      else if HasTitle(view.favorites, reflection.title) then
        view.(favorites := WithoutTitle(view.favorites, reflection.title))
      else
        view.(favorites := [SavedEntry(reflection, id, timestamp)] + view.favorites)
  }

  /** Removing a title keeps the remaining favourites in their relative order:
      removing it from a concatenation removes it from each part. */
  lemma WithoutTitleAppend(a: seq<SavedEntry>, b: seq<SavedEntry>, title: string)
    ensures WithoutTitle(a + b, title) == WithoutTitle(a, title) + WithoutTitle(b, title)
  {
    FilterAppend(a, b, (f: SavedEntry) => f.Title() != title);
  }

  /** Toggling a result that is not yet a favourite twice, while signed in,
      gives back the original list. */
  lemma ToggleTwiceRestores(view: FavoritesView, reflection: Reflection, user: User,
                            id: string, timestamp: int, id': string, timestamp': int)
    requires !HasTitle(view.favorites, reflection.title)
    ensures var once := Toggle(view, Some(reflection), Some(user), id, timestamp);
            Toggle(once, Some(reflection), Some(user), id', timestamp') == view
  {
    var once := Toggle(view, Some(reflection), Some(user), id, timestamp);
    var entry := SavedEntry(reflection, id, timestamp);
    assert once.favorites == [entry] + view.favorites;
    assert HasTitle(once.favorites, reflection.title) by {
      assert once.favorites[0].Title() == reflection.title;
    }
    WithoutTitleAppend([entry], view.favorites, reflection.title);
    assert WithoutTitle([entry], reflection.title) == [] by {
      assert entry !in WithoutTitle([entry], reflection.title);
    }
  }

  /** Signing in after a refused toggle and toggling again puts the result
      first; toggling a third time removes exactly that entry. */
  lemma SignInThenToggleTwice(view: FavoritesView, reflection: Reflection, user: User,
                              id: string, timestamp: int, id': string, timestamp': int)
    requires !HasTitle(view.favorites, reflection.title)
    ensures var refused := Toggle(view, Some(reflection), None, id, timestamp);
            refused.favorites == view.favorites && refused.loginPrompt
    ensures var added := Toggle(view, Some(reflection), Some(user), id, timestamp);
            added.favorites[0].reflection == reflection &&
            Toggle(added, Some(reflection), Some(user), id', timestamp').favorites == view.favorites
  {
    ToggleTwiceRestores(view, reflection, user, id, timestamp, id', timestamp');
  }
}
