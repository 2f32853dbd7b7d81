/** What capability matching means, apart from how it is computed. */
module Capability {
  import opened Common
  import opened Schedule

  predicate Loose(requested: nat, limit: Option<nat>) {
    limit.Some? ==> requested <= limit.value
  }

  function VideoFrames(k: nat): nat {
    5 + 17 * k
  }

  /** Sides in whole 32-pixel blocks, at least one step; a still image has no frame
      count, a video has 5 plus a multiple of 17 frames. */
  ghost predicate WellShaped(r: Requirement) {
    && r.shape.width > 0 && r.shape.height > 0 && r.shape.width % 32 == 0 && r.shape.height % 32 == 0
    && r.shape.steps.Some? && r.shape.steps.value > 0
    && (r.modality == Image ==> r.shape.frames == None)
    && (r.modality == Video ==> r.shape.frames.Some? && exists k :: r.shape.frames.value == VideoFrames(k))
  }

  /** A limit on the true, unbounded product. The saturating product of the source
      cannot exceed a limit that is the saturation value itself. */
  predicate LooseProduct(product: nat, limit: Option<nat>) {
    limit.Some? ==> product <= limit.value || limit.value >= U64_LIMIT - 1
  }

  ghost predicate WithinLimits(limits: ShapeLimits, r: Requirement)
    requires WellShaped(r)
  {
    var pixels := r.shape.width * r.shape.height;
    && Loose(r.shape.steps.value, limits.maxSteps)
    && (r.modality == Image ==> Loose(pixels, limits.maxImagePixels))
    && (r.modality == Video ==>
         && Loose(r.shape.frames.value, limits.maxVideoFrames)
         && LooseProduct(pixels * r.shape.frames.value, limits.maxVideoPixels))
  }

  /** Saturation changes a verdict exactly where the limit is the saturation value
      and the product lies beyond it. */
  lemma {:induction false} SaturationIsExactIff(pixels: nat, frames: nat, limit: nat)
    requires limit < U64_LIMIT
    ensures (Exceeds(SaturatingMul(pixels, frames), Some(limit)) <==> pixels * frames > limit)
      <==> !(limit == U64_LIMIT - 1 && pixels * frames > limit)
  {
  }

  lemma {:induction false} SaturatedVerdict(pixels: nat, frames: nat, limit: Option<nat>)
    ensures Exceeds(SaturatingMul(pixels, frames), limit) <==> !LooseProduct(pixels * frames, limit)
  {
    if limit.Some? && limit.value < U64_LIMIT {
      SaturationIsExactIff(pixels, frames, limit.value);
    }
  }

  lemma {:induction false} FrameCounts(frames: nat)
    ensures (frames >= 5 && (frames - 5) % 17 == 0) <==> exists k :: frames == VideoFrames(k)
  {
    if frames >= 5 && (frames - 5) % 17 == 0 {
      assert frames == VideoFrames((frames - 5) / 17);
    }
  }

  /** A slot runs a Generation exactly when tenant, model, modality and LoRAs match
      and the shape is well formed within the limits, whatever the limits are. */
  lemma {:induction false} AdmitsIff(c: SlotCapability, r: Requirement)
    ensures Admits(c, r).Ok? <==>
      && c.tenant == r.tenant && r.version in c.manifests && c.manifests[r.version] == r.modality
      && (forall l :: l in r.loras ==> l in c.imageLoras)
      && WellShaped(r) && WithinLimits(c.limits, r)
  {
    if r.modality.Video? && r.shape.frames.Some? {
      FrameCounts(r.shape.frames.value);
      SaturatedVerdict(r.shape.width * r.shape.height, r.shape.frames.value, c.limits.maxVideoPixels);
    }
  }

  /** Why a slot turns a Generation away: the first of tenant, model, modality, LoRAs
      and shape that does not fit, a malformed shape before any limit. */
  lemma {:induction false} TurnedAwayIff(c: SlotCapability, r: Requirement)
    ensures Admits(c, r) == Err(TenantMismatch) <==> c.tenant != r.tenant
    ensures Admits(c, r) == Err(MissingModel) <==> c.tenant == r.tenant && r.version !in c.manifests
    ensures Admits(c, r) == Err(ModelModalityMismatch) <==>
      c.tenant == r.tenant && r.version in c.manifests && c.manifests[r.version] != r.modality
    ensures Admits(c, r) == Err(MissingLora) <==>
      && c.tenant == r.tenant && r.version in c.manifests && c.manifests[r.version] == r.modality
      && exists l :: l in r.loras && l !in c.imageLoras
    ensures Admits(c, r) == Err(InvalidShape) <==>
      && c.tenant == r.tenant && r.version in c.manifests && c.manifests[r.version] == r.modality
      && r.loras <= c.imageLoras && !WellShaped(r)
  {
    if r.modality.Video? && r.shape.frames.Some? {
      FrameCounts(r.shape.frames.value);
    }
  }

  /** Not stricter. */
  predicate AtLeast(wider: Option<nat>, limit: Option<nat>) {
    wider.Some? ==> limit.Some? && limit.value <= wider.value
  }

  /** `d` offers everything `c` does. */
  predicate Wider(d: SlotCapability, c: SlotCapability) {
    && d.tenant == c.tenant && c.imageLoras <= d.imageLoras
    && (forall v :: v in c.manifests ==> v in d.manifests && d.manifests[v] == c.manifests[v])
    && AtLeast(d.limits.maxImagePixels, c.limits.maxImagePixels)
    && AtLeast(d.limits.maxVideoPixels, c.limits.maxVideoPixels)
    && AtLeast(d.limits.maxVideoFrames, c.limits.maxVideoFrames)
    && AtLeast(d.limits.maxSteps, c.limits.maxSteps)
  }

  /** `any_candidate_remains`. */
  predicate AnyCandidate(slots: seq<SlotCapability>, r: Requirement) {
    exists i :: 0 <= i < |slots| && Admits(slots[i], r).Ok?
  }

  /** Offering more never turns work away, so widening a slot never takes the last
      candidate. */
  lemma {:induction false} WiderSlotAdmitsMore(slots: seq<SlotCapability>, i: nat, d: SlotCapability, r: Requirement)
    requires i < |slots| && Wider(d, slots[i])
    ensures Admits(slots[i], r).Ok? ==> Admits(d, r).Ok?
    ensures AnyCandidate(slots, r) ==> AnyCandidate(slots[i := d], r)
  {
    if AnyCandidate(slots, r) {
      var j :| 0 <= j < |slots| && Admits(slots[j], r).Ok?;
      assert slots[i := d][j] == if j == i then d else slots[j];
    }
  }
}
