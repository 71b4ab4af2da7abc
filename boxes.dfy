/** The bounding box of a run: integer extents at mip 0 and the mip the extents
    were given at. The box's own arithmetic lives outside the modelled files;
    here a box is only carried from the parameter tables to the tasks. */
module Boxes {
  datatype BBox = BBox(xStart: int, xStop: int, yStart: int, yStop: int, mip: int)
}
