/** Model of DTOs/Tags/TagMappings.cs: the TagDto view of a Tag, building a
    Tag from a CreateTagDto, and updating a Tag in place. The clock and the
    GUID are inputs. */
module TagMappings {
  import opened Wrappers
  import opened TagDtos

  /** The Tag entity. */
  class Tag {
    var id: string
    var userId: string
    var name: string
    var description: Option<string>
    var createdAtUtc: int
    var updatedAtUtc: Option<int>

    /** The object initialiser of ToEntity; UpdatedAtUtc keeps its default, null. */
    constructor (id: string, userId: string, name: string, description: Option<string>, createdAtUtc: int)
      ensures this.id == id && this.userId == userId && this.name == name
      ensures this.description == description && this.createdAtUtc == createdAtUtc
      ensures updatedAtUtc == None
    {
      this.id := id;
      this.userId := userId;
      this.name := name;
      this.description := description;
      this.createdAtUtc := createdAtUtc;
      updatedAtUtc := None;
    }
  }

  /** ToDto(tag) */
  function ToDto(tag: Tag): TagDto
    reads tag
  {
    TagDto(tag.id, tag.name, tag.description, tag.createdAtUtc, tag.updatedAtUtc)
  }

  /** ToDto copies the id, name, description and both time stamps; the
      owner is not part of the view. */
  lemma ToDtoCopies(tag: Tag)
    ensures var d := ToDto(tag);
      && d.id == tag.id && d.name == tag.name && d.description == tag.description
      && d.createdAtUtc == tag.createdAtUtc && d.updatedAtUtc == tag.updatedAtUtc
  {
  }

  /** ToEntity(dto, userId): a new tag of the user with id "t_" + guid and
      the DTO's name and description, created now and never updated. */
  method ToEntity(dto: CreateTagDto, userId: string, guid: string, utcNow: int) returns (tag: Tag)
    ensures fresh(tag)
    ensures tag.userId == userId
    ensures ToDto(tag) == TagDto("t_" + guid, dto.name, dto.description, utcNow, None)
  {
    tag := new Tag("t_" + guid, userId, dto.name, dto.description, utcNow);
  }

  /** UpdateFromDto(tag, dto): the name and description are overwritten and
      the update time stamped; id, owner and creation time stay. */
  method UpdateFromDto(tag: Tag, dto: UpdateTagDto, utcNow: int)
    modifies tag
    ensures tag.name == dto.name && tag.description == dto.description
    ensures tag.updatedAtUtc == Some(utcNow)
    ensures tag.id == old(tag.id) && tag.userId == old(tag.userId) && tag.createdAtUtc == old(tag.createdAtUtc)
    ensures ToDto(tag) == old(ToDto(tag)).(name := dto.name, description := dto.description, updatedAtUtc := Some(utcNow))
  {
    tag.name := dto.name;
    tag.description := dto.description;
    tag.updatedAtUtc := Some(utcNow);
  }
}
