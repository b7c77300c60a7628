/**
 * The "Combine images" node: concatenate two image batches along the batch
 * dimension, or, when the per-image shapes disagree, return the first batch
 * and drop the second.
 *
 * A batch is a four-dimensional tensor (count, height, width, channels); it is
 * modelled as the per-image shape together with the sequence of images, the
 * images themselves being of an abstract type.
 */
module CombineImageBatch {

  datatype Shape = Shape(height: nat, width: nat, channels: nat)

  datatype Batch<Img> = Batch(shape: Shape, images: seq<Img>)

  /** The outcome of `torch.cat((a, b), 0)`: a new batch, or the RuntimeError
      raised for a size mismatch, carrying both shapes. */
  datatype CatResult<Img> = Combined(batch: Batch<Img>) | Rejected(shapeA: Shape, shapeB: Shape)

  /** The size of a batch as `Tensor.size()` reports it. */
  function TensorSize<Img>(b: Batch<Img>): (nat, nat, nat, nat) {
    (|b.images|, b.shape.height, b.shape.width, b.shape.channels)
  }

  /** `torch.cat` along dimension 0: every dimension but the first must agree. */
  function Cat<Img>(a: Batch<Img>, b: Batch<Img>): (r: CatResult<Img>)
    ensures r.Combined? <==> a.shape == b.shape
    ensures r.Combined? ==>
      && r.batch.shape == a.shape
      && |r.batch.images| == |a.images| + |b.images|
      && (forall i :: 0 <= i < |a.images| ==> r.batch.images[i] == a.images[i])
      && (forall j :: 0 <= j < |b.images| ==> r.batch.images[|a.images| + j] == b.images[j])
    ensures r.Rejected? ==> r.shapeA == a.shape && r.shapeB == b.shape
  {
    if a.shape == b.shape then Combined(Batch(a.shape, a.images + b.images))
    else Rejected(a.shape, b.shape)
  }

  /** `combine_images`: the concatenation, or `images_a` when `torch.cat` rejects the pair. */
  function CombineImages<Img>(a: Batch<Img>, b: Batch<Img>): (r: Batch<Img>)
    ensures r.shape == a.shape
    ensures a.shape == b.shape ==>
      && |r.images| == |a.images| + |b.images|
      && (forall i :: 0 <= i < |a.images| ==> r.images[i] == a.images[i])
      && (forall j :: 0 <= j < |b.images| ==> r.images[|a.images| + j] == b.images[j])
    ensures a.shape != b.shape ==> r == a
  {
    match Cat(a, b)
    case Combined(c) => c
    case Rejected(_, _) => a
  }

  /** Whatever the inputs, the first batch comes first and unchanged, and
      nothing but images of the two inputs occurs in the result. */
  lemma CombineKeepsFirst<Img>(a: Batch<Img>, b: Batch<Img>)
    ensures var r := CombineImages(a, b);
      && |a.images| <= |r.images| <= |a.images| + |b.images|
      && r.images[..|a.images|] == a.images
      && multiset(r.images) <= multiset(a.images) + multiset(b.images)
  {
  }

  /** Combining is associative except when the outer batches agree in shape
      but the middle one does not, and the last one is not empty: then the
      left grouping keeps the last batch and the right grouping drops it. */
  lemma CombineAssociative<Img>(a: Batch<Img>, b: Batch<Img>, c: Batch<Img>)
    ensures CombineImages(CombineImages(a, b), c) == CombineImages(a, CombineImages(b, c))
        <==> !(a.shape == c.shape && a.shape != b.shape && |c.images| > 0)
  {
  }

  /** Sizes: matching batches of n and m images give n + m images of the same
      size; a mismatch gives the size of the first batch. */
  lemma CombineSize<Img>(a: Batch<Img>, b: Batch<Img>)
    ensures var (n, h, w, ch) := TensorSize(a);
      TensorSize(CombineImages(a, b)) ==
        if a.shape == b.shape then (n + |b.images|, h, w, ch) else (n, h, w, ch)
  {
  }
}
