/** The request and response records of the HTTP API (types/api.go). */
module ApiTypes {

  /** The preview returned by `GET /api/info/`: server-suggested values for the task fields. */
  datatype GetVideoInfoRes = GetVideoInfoRes(
    url: string, slug: string, thumbnail: string, title: string, artist: string, album: string)

  /** The body of `POST /api/tasks/`: the six fields a task is created from. */
  datatype CreateTaskBody = CreateTaskBody(
    url: string, slug: string, thumbnail: string, title: string, artist: string, album: string)
}
