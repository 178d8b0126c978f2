/** The post record and the fixed dataset the page searches. */
module Blog {

  datatype Post = Post(id: int, title: string, excerpt: string, tags: seq<string>, author: string)

  /**
   * The four hard-coded posts, in display order. The excerpts are written as
   * concatenations of word-aligned pieces; each value is exactly the text of
   * the original record.
   */
  const BlogPosts: seq<Post> := [
    Post(1, "Introduction to React Hooks",
      "Discover the power of " + "React Hooks and how they " + "revolutionize state " + "management...",
      ["react", "javascript", "programming"], "Jane Doe"),
    Post(2, "Tailwind CSS Best Practices",
      "Learn how to create " + "efficient and responsive " + "designs with Tailwind " + "CSS...",
      ["css", "design", "tailwind"], "John Smith"),
    Post(3, "Advanced JavaScript Techniques",
      "Explore advanced " + "JavaScript methods and " + "functional programming " + "concepts...",
      ["javascript", "programming"], "Alice Johnson"),
    Post(4, "Web Performance Optimization",
      "Strategies to improve " + "your web application's " + "speed and efficiency...",
      ["performance", "web", "optimization"], "Bob Williams")
  ]
}
