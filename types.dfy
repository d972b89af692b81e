/** The records the admin panel exchanges with its REST API (types/index.ts),
    and the two wrappers the rest of the model uses for absent values and
    for calls that either answer or fail. */
module Types {

  /** A value or nothing: TypeScript's `T | null`. */
  datatype Option<+T> = None | Some(value: T)

  /** The body of a non-2xx answer: `{ detail: string }`. */
  datatype ApiError = ApiError(detail: string)

  /** What one call to the REST API comes back with: the parsed body or a failure. */
  datatype Reply<+T> = Ok(value: T) | Fail(error: ApiError)

  /** An administrator account as `GET /admin/me` returns it. */
  datatype Admin = Admin(
    id: int,
    email: string,
    username: string,
    isActive: bool,
    isSuperAdmin: bool,
    createdAt: string)

  datatype LoginCredentials = LoginCredentials(username: string, password: string)

  /** The answer of `POST /auth/login`. */
  datatype Token = Token(accessToken: string, tokenType: string)

  /** A published or draft article; `excerpt`, `featuredImage` and `updatedAt` are nullable. */
  datatype Article = Article(
    id: int,
    title: string,
    slug: string,
    content: string,
    excerpt: Option<string>,
    featuredImage: Option<string>,
    authorId: int,
    published: bool,
    createdAt: string,
    updatedAt: Option<string>)
}
