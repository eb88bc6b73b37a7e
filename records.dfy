/** The rows of the CSV tables and the keys each table deduplicates on. */
module Records {
  import opened Identity

  /** A row of the executive-order table (columns `ID, Title, Date, Link`). */
  datatype OrderRow = OrderRow(id: Id, title: string, date: string, link: string)

  /** A row of the analysis table (columns `ID, Analysis`). */
  datatype AnalysisRow = AnalysisRow(id: Id, analysis: string)

  /** A row of the posts table (columns `ID, X_Post`). */
  datatype PostRow = PostRow(id: Id, post: string)

  /** A row of the earlier script's tweet table (columns `ID, Tweet`). */
  datatype TweetRow = TweetRow(id: Id, tweet: string)

  /** `subset=["ID"]` */
  function OrderKey(r: OrderRow): Id { r.id }

  /** `subset=["ID"]` */
  function AnalysisKey(r: AnalysisRow): Id { r.id }

  /** `subset=["ID", "X_Post"]`: one order may own several posts. */
  function PostKey(r: PostRow): (Id, string) { (r.id, r.post) }

  /** `subset=["ID"]` */
  function TweetKey(r: TweetRow): Id { r.id }
}
