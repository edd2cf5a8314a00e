/** The tag DTO records of DTOs/Tags. Times are tick counts. */
module TagDtos {
  import opened Wrappers

  /** CreateTagDto */
  datatype CreateTagDto = CreateTagDto(name: string, description: Option<string>)

  /** UpdateTagDto */
  datatype UpdateTagDto = UpdateTagDto(name: string, description: Option<string>)

  /** TagDto */
  datatype TagDto = TagDto(
    id: string,
    name: string,
    description: Option<string>,
    createdAtUtc: int,
    updatedAtUtc: Option<int>)
}
