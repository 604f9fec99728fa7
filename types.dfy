/** Records returned by the hashtag search endpoint, reduced to the fields the
    trend computation reads, and the error-or-value result of a fetch. */
module Types {

  /** One hashtag mention inside a video's description. */
  datatype Hashtag = Hashtag(hashtagId: string, hashtagName: string)

  /** One video of a result page, reduced to its hashtag list (the other fields are not read). */
  datatype Item = Item(textExtra: seq<Hashtag>)

  /** One page of results of the hashtag search. */
  datatype HashtagR = HashtagR(itemList: seq<Item>)

  /** The error a failed fetch is converted to (`new Error(String(e))`). */
  datatype Error = Error(message: string)

  /** The Either a task resolves to: a Left error or a Right value. */
  datatype Result<T> = Ok(value: T) | Err(error: Error)
}
