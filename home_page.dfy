/**
 * The home page's "featured" section: the first three featured items of
 * the menu file, each labelled with its category's name.
 */
module HomePage {
  import opened ArrayOps
  import opened MenuData

  /** How many featured items the home page shows. */
  const FEATURED_LIMIT: nat := 3

  /** `menuData.menuItems.filter(item => item.featured).slice(0, 3)` */
  function FeaturedItems(items: seq<MenuItem>): (r: seq<MenuItem>)
    ensures |r| <= FEATURED_LIMIT
    ensures forall i :: 0 <= i < |r| ==> r[i].featured
  {
    var featured := Filter(IsFeatured, items);
    featured[..if |featured| < FEATURED_LIMIT then |featured| else FEATURED_LIMIT]
  }

  /** A prefix of a subsequence is a subsequence. */
  lemma {:induction false} SubsequencePrefix<T>(r: seq<T>, s: seq<T>, n: nat)
    requires n <= |r| && IsSubsequence(r, s)
    ensures IsSubsequence(r[..n], s)
    decreases |s|
  {
    if n > 0 {
      if r[0] == s[0] && IsSubsequence(r[1..], s[1..]) {
        assert r[..n][1..] == r[1..][..n - 1];
        SubsequencePrefix(r[1..], s[1..], n - 1);
      } else {
        SubsequencePrefix(r, s[1..], n);
      }
    }
  }

  /**
   * The section shows as many featured items as there are, up to three, in
   * menu order.
   */
  lemma FeaturedItemsShape(items: seq<MenuItem>)
    ensures var count := |Filter(IsFeatured, items)|;
            |FeaturedItems(items)| == if count < FEATURED_LIMIT then count else FEATURED_LIMIT
    ensures IsSubsequence(FeaturedItems(items), items)
  {
    var featured := Filter(IsFeatured, items);
    SubsequencePrefix(featured, items, |FeaturedItems(items)|);
  }

  /**
   * A featured item preceded by fewer than three featured items is on the
   * home page, in the place given by how many featured items precede it.
   */
  lemma EarlyFeaturedItemIsShown(items: seq<MenuItem>, j: nat)
    requires j < |items| && items[j].featured
    requires |Filter(IsFeatured, items[..j])| < FEATURED_LIMIT
    ensures var k := |Filter(IsFeatured, items[..j])|;
            k < |FeaturedItems(items)| && FeaturedItems(items)[k] == items[j]
  {
    var before, from := items[..j], items[j..];
    assert items == before + from;
    FilterAppend(IsFeatured, before, from);
    assert from == [items[j]] + from[1..];
    assert Filter(IsFeatured, from) == [items[j]] + Filter(IsFeatured, from[1..]);
  }
}
