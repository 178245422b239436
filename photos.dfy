/**
 * The records the gallery works on: photos, their authors and the channel
 * header, as delivered by the gallery's JSON endpoint. They are values and
 * never change once fetched.
 */
module Photos {

  /** The usual Some/None wrapper; stands for a JavaScript value that may be missing. */
  datatype Option<+T> = None | Some(value: T) {
    function GetOr(default: T): T {
      match this
      case Some(v) => v
      case None => default
    }
  }

  /** A photo id, used as a key of the reaction object (JavaScript coerces keys to strings). */
  type PhotoId = string

  datatype Author = Author(name: string, image: string)

  datatype Photo = Photo(
    id: PhotoId,
    name: string,
    thumbSrc: string,
    fullSrc: string,
    dateTaken: string,
    author: Author)

  datatype Channel = Channel(name: string)

  /** The body of the photo list response: `{ channel, photos }`, either field possibly absent. */
  datatype Feed = Feed(channel: Option<Channel>, photos: Option<seq<Photo>>)
}
