/** What the pipeline sees of an HTTP exchange: the status and the body of
    a response. Sending is always a collaborator passed in as a function. */
module Http {

  datatype HttpResponse = HttpResponse(code: int, body: string)

  /** OkHttp's `isSuccessful`: a 2xx status. */
  predicate IsSuccessful(response: HttpResponse) {
    200 <= response.code < 300
  }
}
