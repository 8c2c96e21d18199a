/** What is known about the images a build produced, per platform, and the references they are to be pushed as. */
module ImageInfo {
  import opened Common

  datatype TaggedImage = TaggedImage(repo: string, tags: seq<string>) {
    function ImageRefs(): seq<string> {
      seq(|tags|, i requires 0 <= i < |tags| => repo + ":" + tags[i])
    }
  }

  datatype BuiltImage = BuiltImage(repo: string, tag: string, digest: string, platform: string) {
    function ImageRef(): string {
      repo + ":" + tag
    }
  }

  class BuiltImageInfo {
    const id: string
    var platforms: seq<string>                      // the keys of the dictionary below, as inserted
    var imagesByPlatform: map<string, BuiltImage>
    var taggedImages: seq<TaggedImage>

    ghost predicate Valid()
      reads this
    {
      NoDup(platforms) && imagesByPlatform.Keys == Elems(platforms)
    }

    constructor (id: string)
      ensures Valid() && this.id == id && platforms == [] && imagesByPlatform == map[] && taggedImages == []
    {
      this.id := id;
      platforms, imagesByPlatform, taggedImages := [], map[], [];
    }

    /** False stands for the error raised when the platform is already there. */
    method AddPlatformImage(platform: string, image: BuiltImage) returns (ok: bool)
      requires Valid()
      modifies this`platforms, this`imagesByPlatform
      ensures Valid() && ok == (platform !in old(imagesByPlatform))
      ensures imagesByPlatform == if ok then old(imagesByPlatform)[platform := image] else old(imagesByPlatform)
      ensures platforms == if ok then old(platforms) + [platform] else old(platforms)
    {
      if platform in imagesByPlatform {
        return false;
      }
      platforms := platforms + [platform];
      imagesByPlatform := imagesByPlatform[platform := image];
      return true;
    }

    method AddTaggedImage(repo: string, tags: seq<string>)
      requires Valid()
      modifies this`taggedImages
      ensures Valid() && taggedImages == old(taggedImages) + [TaggedImage(repo, tags)]
    {
      taggedImages := taggedImages + [TaggedImage(repo, tags)];
    }

    /** The references of the platform images, in the order they were added. */
    function SourceRefs(): (refs: seq<string>)
      requires Valid()
      reads this
      ensures |refs| == |platforms|
      ensures forall i :: 0 <= i < |refs| ==>
        refs[i] == imagesByPlatform[platforms[i]].repo + ":" + imagesByPlatform[platforms[i]].tag
    {
      seq(|platforms|, i requires 0 <= i < |platforms| && Valid() reads this => PlatformRef(platforms[i]))
    }

    function PlatformRef(platform: string): string
      requires Valid() && platform in platforms
      reads this
    {
      imagesByPlatform[platform].ImageRef()
    }
  }
}
