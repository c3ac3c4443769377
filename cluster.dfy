/** A cluster: an ordered, append-only list of the points assigned to it. */
module Clusters {

  /** A point is a vector of coordinates (two of them in the data the program classifies). */
  type Point = seq<real>

  class Cluster {
    var images: seq<Point>

    /** Stores exactly the seed points it is given, in their order. */
    constructor (images: seq<Point>)
      ensures this.images == images
    {
      this.images := images;
    }

    /** Appends one point; it never fails and returns nothing. */
    method Add(image: Point)
      modifies this
      ensures images == old(images) + [image]
      ensures |images| == |old(images)| + 1
      ensures images[|images| - 1] == image
      ensures images[..|old(images)|] == old(images)
    {
      images := images + [image];
    }
  }
}
