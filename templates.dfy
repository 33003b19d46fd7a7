/**
 * The template store: an append-only table of HTML template revisions. Reading returns the
 * newest revision and seeds the bundled default only when the table is empty. The default
 * HTML and the clock are parameters.
 */
module Templates {
  import opened Wrappers

  datatype Revision = Revision(id: nat, html: string, createdAt: int)

  /**
   * The revision `TemplateRevision.latest` returns: one whose creation time is greatest, the
   * later-saved one among equal times.
   */
  function LatestOf(revs: seq<Revision>): (r: Option<Revision>)
    ensures r.None? <==> revs == []
    ensures r.Some? ==> r.value in revs
    ensures r.Some? ==> forall i :: 0 <= i < |revs| ==> revs[i].createdAt <= r.value.createdAt
  {
    if revs == [] then None
    else
      var earlier := LatestOf(revs[..|revs| - 1]);
      var last := revs[|revs| - 1];
      if earlier.None? || last.createdAt >= earlier.value.createdAt then Some(last) else earlier
  }

  /** A revision saved no earlier than every other one is the one read back. */
  lemma SavedIsLatest(revs: seq<Revision>, r: Revision)
    requires forall i :: 0 <= i < |revs| ==> revs[i].createdAt <= r.createdAt
    ensures LatestOf(revs + [r]) == Some(r)
  {
    assert (revs + [r])[..|revs|] == revs;
  }

  /** With a strictly increasing clock the newest revision is simply the last one saved. */
  lemma {:induction false} LatestIsLast(revs: seq<Revision>)
    requires revs != []
    requires forall i, j :: 0 <= i < j < |revs| ==> revs[i].createdAt < revs[j].createdAt
    ensures LatestOf(revs) == Some(revs[|revs| - 1])
  {
    var init := revs[..|revs| - 1];
    if init != [] {
      LatestIsLast(init);
    }
  }

  class TemplateStore {
    var revisions: seq<Revision>

    /** Row ids follow the order in which revisions were saved. */
    ghost predicate Valid()
      reads this
    {
      forall i :: 0 <= i < |revisions| ==> revisions[i].id == i + 1
    }

    constructor()
      ensures Valid() && revisions == []
    {
      revisions := [];
    }

    /** `save_template_html`: appends a new revision and leaves the earlier ones alone. */
    method Save(html: string, now: int) returns (r: Revision)
      requires Valid()
      modifies this
      ensures Valid()
      ensures r == Revision(|old(revisions)| + 1, html, now)
      ensures revisions == old(revisions) + [r]
    {
      r := Revision(|revisions| + 1, html, now);
      revisions := revisions + [r];
    }

    /** `TemplateRevision.latest`. */
    method Latest() returns (r: Option<Revision>)
      ensures r == LatestOf(revisions)
    {
      r := None;
      var i := 0;
      while i < |revisions|
        invariant 0 <= i <= |revisions|
        invariant r == LatestOf(revisions[..i])
      {
        assert revisions[..i + 1][..i] == revisions[..i];
        if r.None? || revisions[i].createdAt >= r.value.createdAt {
          r := Some(revisions[i]);
        }
        i := i + 1;
      }
      assert revisions[..i] == revisions;
    }

    /**
     * `get_template_html` through `ensure_template`: the newest revision's HTML; on an empty
     * store the default is saved first and returned, and a store that has a revision is left
     * as it is.
     */
    method Current(defaultHtml: string, now: int) returns (html: string)
      requires Valid()
      modifies this
      ensures Valid()
      ensures old(revisions) == [] ==> revisions == [Revision(1, defaultHtml, now)] && html == defaultHtml
      ensures old(revisions) != [] ==> revisions == old(revisions) && html == LatestOf(revisions).value.html
    {
      var latest := Latest();
      if latest.None? {
        var seeded := Save(defaultHtml, now);
        html := seeded.html;
      } else {
        html := latest.value.html;
      }
    }
  }
}
