/**
  * What the extraction code reads: the region catalogue (`regions.json`) and a
  * decoded image together with the two engines applied to its crops.
  */
module Catalog {

  /** One colour channel of a decoded RGB image. */
  type Channel = x: int | 0 <= x <= 255

  datatype Pixel = Pixel(r: Channel, g: Channel, b: Channel)

  /**
    * One entry of `regions.json`: a zodiac sign, the box holding its star and
    * the box holding its text, each `[left, top, right, bottom]`.
    */
  datatype Region = Region(name: string, star: seq<real>, text: seq<real>)

  /**
    * A decoded image. `ocr(box)` is what Tesseract reads in `img.crop(box)`,
    * `patch(box)` the pixels of that crop in row order. Both are external
    * engines and stay uninterpreted.
    */
  datatype Picture = Picture(
    width: nat,
    height: nat,
    ocr: seq<real> -> string,
    patch: seq<real> -> seq<Pixel>)

  /** `[region["name"] for region in regions]` */
  function Names(regions: seq<Region>): seq<string> {
    seq(|regions|, i requires 0 <= i < |regions| => regions[i].name)
  }
}
