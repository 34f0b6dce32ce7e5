/**
  The conference table as `updateConferenceBySlug` (server/storage.ts) changes
  it: `update conferences set <patch> where slug = <slug> returning *`, of
  which the first returned row is the result.
 */
module Conferences {
  import opened Wrappers
  import opened Seqs
  import opened Schema

  /** The conference with every field the patch names overwritten. */
  function ApplyPatch(c: Conference, p: ConferencePatch): (r: Conference)
    ensures p.slug.Some? ==> r.slug == p.slug.value
    ensures p.slug.None? ==> r.slug == c.slug
    ensures p == ConferencePatch() ==> r == c
  {
    Conference(
      p.slug.GetOr(c.slug),
      p.name.GetOr(c.name),
      p.year.GetOr(c.year),
      p.location.GetOr(c.location),
      p.startDate.GetOr(c.startDate),
      p.endDate.GetOr(c.endDate),
      p.division.GetOr(c.division),
      p.gridSquare.GetOr(c.gridSquare),
      p.gps.GetOr(c.gps),
      p.locationAddress.GetOr(c.locationAddress),
      p.logoUrl.GetOr(c.logoUrl),
      p.faviconUrl.GetOr(c.faviconUrl),
      p.primaryColor.GetOr(c.primaryColor),
      p.accentColor.GetOr(c.accentColor),
      p.isActive.GetOr(c.isActive))
  }

  /** `q` overriding `p`: the fields `q` names, and the rest from `p`. */
  function Overlay(p: ConferencePatch, q: ConferencePatch): ConferencePatch {
    ConferencePatch(
      if q.slug.Some? then q.slug else p.slug,
      if q.name.Some? then q.name else p.name,
      if q.year.Some? then q.year else p.year,
      if q.location.Some? then q.location else p.location,
      if q.startDate.Some? then q.startDate else p.startDate,
      if q.endDate.Some? then q.endDate else p.endDate,
      if q.division.Some? then q.division else p.division,
      if q.gridSquare.Some? then q.gridSquare else p.gridSquare,
      if q.gps.Some? then q.gps else p.gps,
      if q.locationAddress.Some? then q.locationAddress else p.locationAddress,
      if q.logoUrl.Some? then q.logoUrl else p.logoUrl,
      if q.faviconUrl.Some? then q.faviconUrl else p.faviconUrl,
      if q.primaryColor.Some? then q.primaryColor else p.primaryColor,
      if q.accentColor.Some? then q.accentColor else p.accentColor,
      if q.isActive.Some? then q.isActive else p.isActive)
  }

  /** A patch that names no field changes nothing. */
  lemma EmptyPatchChangesNothing(c: Conference)
    ensures ApplyPatch(c, ConferencePatch()) == c
  {
  }

  /** Applying the same patch twice is applying it once. */
  lemma PatchIdempotent(c: Conference, p: ConferencePatch)
    ensures ApplyPatch(ApplyPatch(c, p), p) == ApplyPatch(c, p)
  {
  }

  /** Two successive patches amount to one patch in which the later one wins. */
  lemma PatchesCompose(c: Conference, p: ConferencePatch, q: ConferencePatch)
    ensures ApplyPatch(ApplyPatch(c, p), q) == ApplyPatch(c, Overlay(p, q))
  {
  }

  /** The row after the update: patched when it has the slug, unchanged otherwise. */
  function PatchRow(row: Row<Conference>, slug: string, patch: ConferencePatch): Row<Conference> {
    if row.data.slug == slug then Row(row.id, ApplyPatch(row.data, patch)) else row
  }

  /**
    The table after the update: the rows whose slug matched are patched, in
    place and under the same key; every other row is unchanged.
   */
  function PatchBySlug(rows: seq<Row<Conference>>, slug: string, patch: ConferencePatch)
    : (r: seq<Row<Conference>>)
    ensures |r| == |rows|
    ensures forall i :: 0 <= i < |rows| ==> r[i].id == rows[i].id
    ensures forall i :: 0 <= i < |rows| && rows[i].data.slug != slug ==> r[i] == rows[i]
  {
    Map(rows, (row: Row<Conference>) => PatchRow(row, slug, patch))
  }

  /** Updating a slug that no row has leaves the table as it was. */
  lemma UpdateMissingSlug(rows: seq<Row<Conference>>, slug: string, patch: ConferencePatch)
    requires forall row :: row in rows ==> row.data.slug != slug
    ensures PatchBySlug(rows, slug, patch) == rows
  {
    var r := PatchBySlug(rows, slug, patch);
    forall i | 0 <= i < |rows| ensures r[i] == rows[i] {
      assert rows[i] in rows;
    }
  }

  /** Repeating an update that keeps the slug changes nothing more. */
  lemma UpdateTwice(rows: seq<Row<Conference>>, slug: string, patch: ConferencePatch)
    requires patch.slug.None? || patch.slug == Some(slug)
    ensures PatchBySlug(PatchBySlug(rows, slug, patch), slug, patch) == PatchBySlug(rows, slug, patch)
  {
    var once := PatchBySlug(rows, slug, patch);
    var twice := PatchBySlug(once, slug, patch);
    forall i | 0 <= i < |rows| ensures twice[i] == once[i] {
      PatchIdempotent(rows[i].data, patch);
    }
  }

  /**
    `const [updated] = ... returning()`: the first row the update touched, as
    it is after the update, or nothing when no row has the slug.
   */
  function FirstUpdated(rows: seq<Row<Conference>>, slug: string, patch: ConferencePatch)
    : (r: Option<Row<Conference>>)
    ensures r.None? <==> forall row :: row in rows ==> row.data.slug != slug
    ensures r.Some? ==> r.value in PatchBySlug(rows, slug, patch)
    ensures r.Some? ==> exists row :: row in rows && row.data.slug == slug
                                    && r.value == Row(row.id, ApplyPatch(row.data, patch))
    ensures r.Some? ==> exists k :: 0 <= k < |rows| && rows[k].data.slug == slug
                                  && r.value == Row(rows[k].id, ApplyPatch(rows[k].data, patch))
                                  && forall i :: 0 <= i < k ==> rows[i].data.slug != slug
  {
    var k := FirstIndex(rows, (row: Row<Conference>) => row.data.slug == slug);
    if k == -1 then
      assert forall row :: row in rows ==> row.data.slug != slug by {
        forall row | row in rows ensures row.data.slug != slug {
          var i :| 0 <= i < |rows| && rows[i] == row;
        }
      }
      None
    else
      var r := Row(rows[k].id, ApplyPatch(rows[k].data, patch));
      assert PatchBySlug(rows, slug, patch)[k] == r;
      assert rows[k] in rows;
      Some(r)
  }
}
