/** The error payload every error builder returns. */
module Models {
  import opened Common

  /** ErrorResponseModel: three settable properties; an unset string is null. */
  datatype ErrorResponseModel = ErrorResponseModel(
    statusCode: int,
    message: Option<string>,
    description: Option<string>)
}
