/**
  Movie records of the box-office dataset (node/movies-service.js).

  The dataset is an externally supplied array of objects; the fields the
  service reads are the three category fields and the two numeric totals.
  All other attributes are carried opaquely and only ever copied.
 */
module Movies {

  /** A category field as read from a record: missing (`undefined` or `null`) or a string. */
  datatype Field = Absent | Text(value: string)

  /** One movie record. `title` stands for every attribute the service never inspects. */
  datatype Movie = Movie(
    title: string,
    studio: Field,
    genre: Field,
    rating: Field,
    revenue: int,
    tickets: int)

  /** The three fields the service builds an index over. */
  datatype Category = Studio | Genre | Rating

  /** The property `movie[propertyName]` for the index's property name. */
  function FieldOf(m: Movie, c: Category): (r: Field) {
    match c
    case Studio => m.studio
    case Genre => m.genre
    case Rating => m.rating
  }
}
